# Study quiz session, modelled in Dafny

This project models the quiz logic of the single-page study app in
`src/App.tsx`. A player picks a week from a menu of five. The week's question
bank is shuffled with Fisher–Yates. The questions are then asked one at a
time against a clock: 30 seconds for the combined "Give me God of War" week
and 60 for the others. A right answer adds one point and a wrong one takes one
away. A remark beside the score depends on its sign. When the clock runs out,
the clock stops and the explanation is shown, but the score does not change.
From there the player moves to the next question or, after the last one,
restarts the same week with a new shuffle.

- `Shuffle.dfy` (module `Shuffle`) holds `shuffleArray` as an in-place array
  method. The random draws are an explicit sequence, so the result is
  specified by the pure function `FisherYates`. The method is proved to return
  a permutation and to leave its input array untouched.
- `Quiz.dfy` (module `Quiz`) holds the values of the quiz and the plain
  expressions the handlers compute:
  - the question and week records and the five-entry week menu;
  - the clock allowance per week;
  - the score remark;
  - the answer check;
  - the two message lists.
- `Session.dfy` (module `QuizSession`) holds the component's state as the
  class `Session`, one field per `useState`. The click handlers and one run of
  the timer effect are methods that update those fields.
  - Every handler keeps the invariant `Valid()`. It says that:
    - the cursor stays on a question, or at 0 when there are none;
    - the questions are an ordering of the selected week's bank;
    - the clock stays between 0 and the week's allowance;
    - the score remark matches the score.
  - Two ghost counters add that the score moves at most once per question.
  - Each handler's frame lists exactly the fields it sets.

Random choices become inputs:
- `draws` gives the swap partners of the shuffle.
- `pick` gives the index of the message shown after an answer or a timeout.

## Model

| member | source | states |
|---|---|---|
| Shuffle.ShuffleArray | src/App.tsx:30-37 | returns a new array holding the Fisher–Yates shuffle of the input under the given draws, with the same length and multiset of elements; the input array keeps its contents |
| Shuffle.ShuffledCopy | src/App.tsx:30-37 | shuffling a list through an array gives the Fisher–Yates order of that list, a permutation of it |
| Shuffle.Swap | src/App.tsx:34 | the exchange keeps the length, puts each of the two elements at the other's position and leaves every other position unchanged |
| Shuffle.SwapPermutes | src/App.tsx:34 | an exchange keeps the multiset of elements |
| Shuffle.ShuffleDown | src/App.tsx:32-35 | the swaps the loop still does from counter i down to 1, in that order; they keep the length |
| Shuffle.ShuffleDownPermutes | src/App.tsx:32-35 | the swaps for counters i down to 1 keep the multiset of elements |
| Shuffle.FisherYates | src/App.tsx:30-37 | the shuffle's result under the given draws, the swaps for counters from the last index down to 1; it has the input's length |
| Shuffle.FisherYatesPermutes | src/App.tsx:30-37 | for all draws, the shuffle has the input's length and multiset, and holds exactly the input's elements |
| Shuffle.ShuffleDownKeeps | src/App.tsx:32-35 | draws that pick j == i at every step leave the remaining swaps without effect |
| Shuffle.FisherYatesKeepsOnSelfDraws | src/App.tsx:33 | with j == i drawn at every step the shuffle returns the input order, so the original order is among the outcomes |
| Quiz.WeekOptions | src/App.tsx:50-81 | the menu has five entries with ids 1 to 5, all sharing one question bank, and only the fifth runs on the 30-second clock |
| Quiz.Duration | src/App.tsx:104 | the allowance is 30 or 60 seconds, and 30 exactly when a week is selected and its title is the combined week's (the same expression sets the clock at lines 90, 160, 177 and 192) |
| Quiz.ScoreTextFor | src/App.tsx:150 | the remark is empty iff the new score is 0, the encouragement iff it is at least 1, and the taunt iff it is negative |
| Quiz.IsCorrect | src/App.tsx:136 | an answer is right only if it is among the options; with the key index out of range no answer is right; otherwise an answer is right iff it is the option at the key |
| Quiz.OnlyTheKeyIsCorrect | src/App.tsx:136 | when the options are pairwise different, the option at index k is right iff k is the key |
| QuizSession.Session.constructor | src/App.tsx:84-97 | the initial state: welcome screen, no week, no questions, score 0, clock stopped at 60 seconds, nothing selected |
| QuizSession.Session.ScoreWithinQuestionCount | src/App.tsx:134-154 | whenever `Valid()` holds, which every handler keeps, the score lies between minus and plus the number of questions |
| QuizSession.Session.GoToWeekSelect | src/App.tsx:167-169 | only the screen changes, to the week menu |
| QuizSession.Session.BackToWelcome | src/App.tsx:310 | only the screen changes, back to the welcome screen |
| QuizSession.Session.StartRound | src/App.tsx:173-180 | the resets shared by choosing a week and restarting: cursor and score at 0, empty remark and message, explanation hidden, clock running from the given seconds, nothing selected |
| QuizSession.Session.SelectWeek | src/App.tsx:171-182 | after the choice and its effect (lines 101-106): the quiz screen, the chosen week, its bank in Fisher–Yates order, the shared resets, and the chosen week's allowance on the clock; the invariant holds |
| QuizSession.Session.HandleAnswer | src/App.tsx:134-154 | the score moves by +1 for the right option and -1 otherwise; the message comes from the matching list; the remark follows the new score; the clock stops and the explanation shows, so the same question cannot score again |
| QuizSession.Session.StopClock | src/App.tsx:152-153 | the clock stops, the explanation shows and the message is set; no other field changes |
| QuizSession.Session.NextQuestion | src/App.tsx:156-165 | before the last question the cursor advances by one, the clock restarts at the week's allowance and the explanation, message and selection clear; at the last question or with no questions nothing changes, so the cursor never passes the last question, and stays at 0 when there are none |
| QuizSession.Session.ResetQuiz | src/App.tsx:184-196 | with a week selected the questions become a fresh shuffle of its bank (otherwise they are kept); cursor and score at 0, clock running at the allowance, everything else cleared; the invariant holds |
| QuizSession.Session.BackToWeekSelect | src/App.tsx:198-201 | back to the week menu with the clock stopped; nothing else changes |
| QuizSession.Session.Tick | src/App.tsx:116-132 | a running clock with time left loses one second; a running clock at 0 stops and shows the explanation with a taunt, leaving the score alone; a stopped clock does nothing; the clock never goes below 0 or up |
| QuizSession.Session.OneWayOn | src/App.tsx:407-418 | once the explanation shows, exactly one of "Next Question" and "Restart Quiz" is offered when there are questions, and neither when there are none |

## Left out

- Rendering, the colour theme, `darkMode` and `toggleTheme` (lines 203-427) are not modelled. They do not affect the quiz state.
- The effect that shuffles the current question's options for display (lines 108-113) is not modelled. An answer is checked by its text, so the display order does not change the outcome.
- `Math.random` is not modelled. The shuffle's swap partners come in as `draws`, and the message index comes in as `pick`.
- The JSON question files and the `console.log` at line 39 are not part of this model. The question bank is a parameter of `WeekOptions`. In the source every week points at the same file.
- React's batching of state updates and its effect scheduling are not modelled. `setInterval` is also left out. `Tick` is one run of the timer effect. `SelectWeek` gives the state after the `selectedWeek` effect has also run.
- `SelectWeek` writes the clock value that line 177 reads from the previous selection. It then overwrites it with the new week's allowance, as the effect at line 104 does. The net state is the one modelled. A render in between, showing the stale value for a moment, is not modelled.
- `HandleAnswer` requires the cursor to be on a question. With no questions, the source would throw while reading the options.
- `HandleAnswer` also requires that the explanation is not showing, because the click guard at line 372 is its only caller.
