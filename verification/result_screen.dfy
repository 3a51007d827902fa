/** The result screen: the score, total and error list computed again from
    the answers it is handed, the summary it displays, and the record it
    prepends to the test's history. */
module ResultScreen {
  import opened Records
  import opened Decimal
  import opened Scoring
  import opened ResultStore
  import QuestionScreen

  /** `newResult`: `correctCount`, `total` and `incorrectAnswers` with the
      date and the elapsed time. */
  function NewResult(date: Date, params: ResultParams): (r: ResultRecord)
    ensures r.date == date && r.elapsedTime == params.elapsedTime
    ensures r.total == |params.results| && r.score + |r.errors| == r.total
  {
    ScorePlusErrors(params.results);
    ResultRecord(date, Score(params.results), |params.results|, params.elapsedTime, Errors(params.results))
  }

  /** Both screens apply the same rules: given the same answers, elapsed time
      and date, the record the result screen prepends is the record the
      question screen wrote. */
  lemma SameRecordOnBothScreens(date: Date, params: ResultParams)
    ensures NewResult(date, params) == QuestionScreen.ResultData(date, params.results, params.elapsedTime)
  {
  }

  /** `saveToStorage`: read the list under the test's key (a missing key
      reads as empty), put the new record in front and write it back. */
  method SaveToStorage(store: Storage, params: ResultParams, date: Date)
    modifies store
    ensures store.items == Prepend(old(store.items), Key(params.testNumber), NewResult(date, params))
  {
    var key := Key(params.testNumber);
    var stored := store.GetItem(key);
    var parsed := if stored.Some? then stored.value else [];
    var newResult := NewResult(date, params);
    store.SetItem(key, [newResult] + parsed);
  }

  /** One card of the error list. */
  datatype ErrorCard = ErrorCard(question: string, yourAnswer: string, correctAnswer: string)

  /** What the screen displays: `Correct: correctCount / total`, the time
      line and one card per incorrect answer. `elapsedTime` holds the
      seconds; the line shows their `formatTime` text, `FormatTime(elapsedTime)`. */
  datatype ResultView = ResultView(correctCount: nat, total: nat, elapsedTime: nat, cards: seq<ErrorCard>)

  /** A numeral with no leading zero: never "0". */
  predicate PositiveNumeral(s: string) {
    |s| >= 1 && AllDigits(s) && s[0] != '0'
  }

  /** `item.selected !== null ? item.selected + 1 : 'None'` */
  function YourAnswer(a: Answer): (r: string)
    ensures a.selected.Some? ==> PositiveNumeral(r)
    ensures a.selected.None? ==> r == "None"
  {
    if a.selected.Some? then NatToString(a.selected.value + 1) else "None"
  }

  /** `item.correct + 1` */
  function CorrectAnswer(a: Answer): (r: string)
    ensures PositiveNumeral(r)
  {
    NatToString(a.correct + 1)
  }

  function Card(a: Answer): ErrorCard {
    ErrorCard(a.question, YourAnswer(a), CorrectAnswer(a))
  }

  /** The whole screen: the counts, the time and the error cards. */
  function View(params: ResultParams): (v: ResultView)
    ensures v.total == |params.results| && v.elapsedTime == params.elapsedTime
    ensures v.correctCount <= v.total && |v.cards| <= v.total
  {
    var errs := Errors(params.results);
    ResultView(
      Score(params.results),
      |params.results|,
      params.elapsedTime,
      seq(|errs|, i requires 0 <= i < |errs| => Card(errs[i])))
  }

  /** Answers are shown 1-based: a selection `s` reads back as the number
      `s + 1`, a missing one as the word "None" (which no number reads as),
      and the correct index `c` as `c + 1`. */
  lemma AnswersShownOneBased(a: Answer)
    ensures a.selected.Some? ==> AllDigits(YourAnswer(a)) && Value(YourAnswer(a)) == a.selected.value + 1
    ensures a.selected.None? ==> YourAnswer(a) == "None" && !AllDigits(YourAnswer(a))
    ensures AllDigits(CorrectAnswer(a)) && Value(CorrectAnswer(a)) == a.correct + 1
  {
    if a.selected.Some? {
      ValueOfNatToString(a.selected.value + 1);
    } else {
      assert !IsDigit(YourAnswer(a)[0]);
    }
    ValueOfNatToString(a.correct + 1);
  }

  /** The stored record carries the numbers on screen: its score and total
      are the displayed ones and its errors are the displayed cards, one by
      one and in order. */
  lemma StoredMatchesDisplayed(date: Date, params: ResultParams)
    ensures var r, v := NewResult(date, params), View(params);
      && r.score == v.correctCount && r.total == v.total
      && |r.errors| == |v.cards|
      && (forall i :: 0 <= i < |v.cards| ==> v.cards[i] == Card(r.errors[i]))
      && v.correctCount + |v.cards| == v.total
      && r.elapsedTime == v.elapsedTime
  {
    ScorePlusErrors(params.results);
  }
}
