/** The values of the quiz in src/App.tsx and the plain expressions the
    handlers compute from them. */
module Quiz {

  datatype Option<T> = None | Some(value: T)

  /** One multiple-choice question of the bank. `correctAnswer` is an index into
      `options` as stored in the data; nothing guarantees it is in range. */
  datatype Question = Question(
    question: string,
    options: seq<string>,
    correctAnswer: int,
    explanation: string)

  /** One entry of the week menu. */
  datatype Week = Week(id: int, title: string, description: string, questions: seq<Question>)

  /** The screen that is shown. */
  datatype AppState = Welcome | WeekSelect | QuizScreen

  /** The title of the week that gets the short clock. */
  const GodOfWar: string := "Give me God of War"

  const ShortDuration: nat := 30
  const LongDuration: nat := 60

  /** Seconds allowed per question for the selected week (none selected: the
      long clock). Every week gets 30 or 60 seconds, and 30 exactly when it is
      the combined week. */
  function Duration(week: Option<Week>): (seconds: nat)
    ensures seconds == ShortDuration || seconds == LongDuration
    ensures seconds == ShortDuration <==> week.Some? && week.value.title == GodOfWar
  {
    if week.Some? && week.value.title == GodOfWar then ShortDuration else LongDuration
  }

  const PositiveText: string := "Come on Velu!"
  const NegativeText: string := "IIT bathroom cleaner vacancy available!"

  /** The remark shown beside the score once an answer has moved it to
      `newScore`: empty exactly at 0, the encouragement exactly at 1 and
      above, and the taunt exactly below 0. */
  function ScoreTextFor(newScore: int): (remark: string)
    ensures remark == "" <==> newScore == 0
    ensures remark == PositiveText <==> newScore >= 1
    ensures remark == NegativeText <==> newScore < 0
  {
    if newScore == 0 then "" else if newScore >= 1 then PositiveText else NegativeText
  }

  /** Whether `option` is the right answer to `q`. Options are compared by their
      text. An index outside `options` reads as `undefined` in the source, which
      equals no option, so then every answer is wrong. */
  function IsCorrect(q: Question, option: string): (correct: bool)
    ensures correct ==> option in q.options
    ensures !(0 <= q.correctAnswer < |q.options|) ==> !correct
    ensures 0 <= q.correctAnswer < |q.options| ==> (correct <==> option == q.options[q.correctAnswer])
  {
    0 <= q.correctAnswer < |q.options| && option == q.options[q.correctAnswer]
  }

  /** A well-formed question whose options are pairwise different has exactly
      one correct option, the one at `correctAnswer`. */
  lemma OnlyTheKeyIsCorrect(q: Question, k: nat)
    requires 0 <= q.correctAnswer < |q.options|
    requires forall a, b :: 0 <= a < b < |q.options| ==> q.options[a] != q.options[b]
    requires k < |q.options|
    ensures IsCorrect(q, q.options[k]) <==> k == q.correctAnswer
  {
    if k != q.correctAnswer {
      if k < q.correctAnswer {
        assert q.options[k] != q.options[q.correctAnswer];
      } else {
        assert q.options[q.correctAnswer] != q.options[k];
      }
    }
  }

  const CorrectMessages: seq<string> := [
    "Yippee!\U{1F389}",
    "Lucky huh?! \U{1F31F}",
    "You're on fire! Nerupu daaa \U{1F525}",
    "Studied huh?! \U{2B50}",
    "Apudi than! \U{1F4AA}"
  ]

  const IncorrectMessages: seq<string> := [
    "Don't be sad, sad backwards is das and das not good! \U{1F4AA}",
    "Charter! Try again! \U{1F31F}",
    "NOOOOOOOOOOOOOOOB! \U{1F4DA}",
    "Podangu! \U{1F3AF}",
    "Poda poi maadu mei! \U{2728}"
  ]

  /** The five entries of the week menu. Every entry carries the same question
      bank `bank`; only the last one runs on the short clock. */
  function WeekOptions(bank: seq<Question>): (weeks: seq<Week>)
    ensures |weeks| == 5
    ensures forall i :: 0 <= i < |weeks| ==> weeks[i].id == i + 1 && weeks[i].questions == bank
    ensures forall i :: 0 <= i < |weeks| ==> (Duration(Some(weeks[i])) == ShortDuration <==> i == 4)
  {
    assert "Week 1 - 4" != GodOfWar && "Week 5 - 6" != GodOfWar && "Week 7 - 9" != GodOfWar;
    assert "Week 10 - 12" != GodOfWar;
    [ Week(1, "Week 1 - 4", "Foundations of Cybersecurity", bank),
      Week(2, "Week 5 - 6", "Network Security", bank),
      Week(3, "Week 7 - 9", "Application Security", bank),
      Week(4, "Week 10 - 12", "Advanced Topics", bank),
      Week(5, GodOfWar, "All weeks combined", bank) ]
  }
}
