# Quiz session, scoring and result history of the Spanish driving tests app

The app is a React Native quiz with three screens. The question screen runs one test: the index of the current question, the option the user has selected, one answer record per question, and a 30-minute countdown. When the test is finished, by the Finish button or by the countdown, it scores the answers and writes the result under the key `@results:test<n>`. The result screen scores the same answers again, shows them, and puts a new record in front of the list stored under that key. The home screen reads the newest record of each of tests 1 to 3.

This project takes that logic out of the screens:

- `records.dfy` (`Records`): the answer record, the question, the stored result record and the route parameters passed to the result screen.
- `decimal.dfy` (`Decimal`): `toString` of non-negative integers, `padStart`, and reading a digit string back as a number.
- `time_format.dfy` (`TimeFormat`): `formatTime`. All three screens declare it with the same body.
- `scoring.dfy` (`Scoring`): the score and error filters that both the question screen and the result screen use.
- `result_store.dfy` (`ResultStore`): the results key, and AsyncStorage as a map from keys to lists of records, newest first. `Prepend` is the result screen's update and `Overwrite` is the question screen's.
- `question_screen.dfy` (`QuestionScreen`): the `Session` class, whose fields are the screen's state variables and whose methods are its handlers, the entry effect and the timer callback. It also holds the countdown as a `Clock` value and the finish gate.
- `result_screen.dfy` (`ResultScreen`): the record the result screen saves, its read-prepend-write, and what it displays.
- `home_screen.dfy` (`HomeScreen`): the latest result per test, the loading loop, the test cards, and the history that one completed test leaves behind.

The model follows the code as written:

- The options are shuffled again every time a question is entered. The shuffle is an input: any rearrangement of the question's options, which is what `sort` with a random comparator produces.
- The first selection on a question wins. Once the entry effect has run, the on-screen selection mirrors the question's answer record, so an answered question cannot be answered again.
- Next and Back stop at the ends without error.
- The timer callback that finds at most one second left clears the interval, sets the countdown to 0 and finishes the test whatever has been answered. As written it saves 0 seconds elapsed (`TickAsWritten`, see Findings); `Tick` saves the 1800 seconds spent.
- The Finish button is usable only on the last question and only once every question is answered. Pressing it does not stop the interval, and the model does not stop it either.
- The question screen overwrites the stored list with a one-element list. The result screen then prepends its own record. So one completed test leaves exactly two records, and any earlier history is lost.
- There is no terminal state. Nothing stops a second finish.
- The recorded selection is a position in the shuffled list, but it is scored against the correct position in the original list (see Findings).

## Model

| member | source | states |
|---|---|---|
| Decimal.NatToString | screens/QuestionScreen.tsx:128-131 | `toString` of a non-negative integer is a non-empty digit string with no leading zero, except "0" itself |
| Decimal.PadStart | screens/HomeScreen.tsx:54-57 | `padStart(width, fill)` yields length max(len, width), keeps the original text as its suffix, and puts only the fill character in front |
| Decimal.ValueOfNatToString | screens/HomeScreen.tsx:54-57 | reading the decimal text of `n` back gives `n` |
| Decimal.ValueOfZeroPadded | screens/HomeScreen.tsx:57 | padding digits with zeros keeps them digits and keeps their value |
| TimeFormat.TwoDigits | screens/ResultScreen.tsx:37-40 | a padded part is at least two digits, exactly two below 100, and reads back as the number it came from |
| TimeFormat.FormatTime | screens/ResultScreen.tsx:36-42 | the text is at least five characters with a colon three from the end, and exactly five below 6000 seconds |
| TimeFormat.FormatTimeRoundTrip | screens/ResultScreen.tsx:36-42 | for every number of seconds, the text is minutes, a colon, and two second digits below 60, and minutes * 60 + seconds read back gives the input |
| TimeFormat.FormatTimeShort | screens/QuestionScreen.tsx:127-133 | below 6000 seconds the text is exactly 5 characters with ':' at position 2, the seconds are at most 59, and mm*60+ss is the input |
| TimeFormat.NoTimeShown | screens/ResultScreen.tsx:36-42 | no time at all is shown as "00:00" |
| QuestionScreen.FullTimeShown | screens/ResultScreen.tsx:36-42 | the full 30 minutes, 1800 seconds, are shown as "30:00" |
| Scoring.Score | screens/ResultScreen.tsx:30-32 | the count of answers whose selection equals the correct index is at most the number of answers |
| Scoring.Errors | screens/ResultScreen.tsx:34 | every listed error is one of the answers and is not correct |
| Scoring.ScorePlusErrors | screens/ResultScreen.tsx:30-34 | score + number of errors == total |
| Scoring.ErrorsComplete | screens/ResultScreen.tsx:34 | every answer that is not correct, a null one included, is listed |
| Scoring.ScoringDistributes | screens/QuestionScreen.tsx:109-112 | scoring splits over concatenation, so the errors keep the order of the answers |
| Scoring.FullScore | screens/QuestionScreen.tsx:109 | score == total iff every answer is correct, and then there are no errors |
| Scoring.NothingAnswered | screens/QuestionScreen.tsx:112 | with all selections null the score is 0 and every answer is an error |
| Scoring.ScoringScenario | screens/ResultScreen.tsx:30-34 | correct, wrong and unanswered give score 1 and errors [wrong, unanswered] |
| ResultStore.Key | screens/HomeScreen.tsx:37 | the key is `@results:test` followed by the test number |
| ResultStore.KeyInjective | screens/QuestionScreen.tsx:116 | two test numbers share a key iff they are equal, so readers and writers meet on one entry per test |
| ResultStore.Lookup | screens/ResultScreen.tsx:48-49 | a missing key reads as the empty list, a present one as its stored list |
| ResultStore.Prepend | screens/ResultScreen.tsx:59 | the list grows by one, its head is the new record, its tail is the old list, and other keys are unchanged |
| ResultStore.Overwrite | screens/QuestionScreen.tsx:115-118 | the entry becomes exactly the one new record and other keys are unchanged |
| ResultStore.PrependTwice | screens/ResultScreen.tsx:47-59 | recording R1 then R2 for a test with no history reads back [R2, R1] |
| QuestionScreen.ResolveTestNumber | screens/QuestionScreen.tsx:26 | a missing or zero test number means 1; any other number is kept |
| QuestionScreen.InitialAnswers | screens/QuestionScreen.tsx:35-41 | one record per question with that question's text and correct index, none of them selected |
| QuestionScreen.InitialAnswersBlank | screens/QuestionScreen.tsx:35-41 | one record per question, copying its text and correct index, all unselected, so finishing at once scores 0 with all questions as errors |
| QuestionScreen.AllAnswered | screens/QuestionScreen.tsx:135 | when every record has a selection, every error the list scores to is a wrong pick, not a missing one |
| QuestionScreen.UnansweredCounts | screens/QuestionScreen.tsx:135 | an unanswered question always lowers the score and is an error; when all are answered, every error is a wrong pick |
| QuestionScreen.ResultData | screens/QuestionScreen.tsx:107-113 | the finished record has total == number of answers, score + errors == total, and its errors are exactly the incorrect answers |
| QuestionScreen.AfterTick | screens/QuestionScreen.tsx:53-61 | a tick keeps the countdown in [0, 1800] and ties the interval to time being left; above 1 it takes off one second, at most 1 it stops at 0, and a cleared interval changes nothing |
| QuestionScreen.StoppedClockStays | screens/QuestionScreen.tsx:56 | after the interval is cleared, no further tick changes anything or finishes again |
| QuestionScreen.TicksFromRunning | screens/QuestionScreen.tsx:52-62 | from t seconds left, k ticks leave t-k while k < t; tick t finishes the test, and it is the only one that does |
| QuestionScreen.FinishFiresOnLastSecond | screens/QuestionScreen.tsx:21 | from the full 1800 seconds the test is finished by tick 1800 and by no other tick |
| QuestionScreen.ShownCorrect | screens/QuestionScreen.tsx:82-83 | an option is coloured correct only if it is one of the question's options, namely the one at the correct index |
| QuestionScreen.Session.constructor | screens/QuestionScreen.tsx:26-43 | for a test number of at least 1 (the default of line 26 never gives 0): index 0, no selection, no options shown yet, blank answer records, 1800 seconds, and the interval set |
| QuestionScreen.Session.ElapsedTime | screens/QuestionScreen.tsx:50 | elapsed time lies in [0, 1800] and adds up with the time left to 1800 |
| QuestionScreen.Session.EnterQuestion | screens/QuestionScreen.tsx:67-72 | the shown options are a rearrangement of the question's options, and the selection is restored from its answer record |
| QuestionScreen.Session.HandleSelect | screens/QuestionScreen.tsx:85-92 | a no-op once something is selected; otherwise only the current record gets the selection. After the entry effect, answered records never change |
| QuestionScreen.Session.HandleNext | screens/QuestionScreen.tsx:94-98 | the index moves up by exactly 1, or stays put on the last question, and never leaves the range |
| QuestionScreen.Session.HandleBack | screens/QuestionScreen.tsx:100-104 | the index moves down by exactly 1, or stays put on the first question, and never leaves the range |
| QuestionScreen.Session.IsLastQuestion | screens/QuestionScreen.tsx:136 | true exactly when the current index is the last question's |
| QuestionScreen.Session.CanFinish | screens/QuestionScreen.tsx:135-136 | Finish is enabled only on the last question and only when all are answered; then no error is a missing answer |
| QuestionScreen.Session.FinishTest | screens/QuestionScreen.tsx:106-125 | the stored list for this test becomes exactly the scored record, and the answers and elapsed time are passed on |
| QuestionScreen.Session.PressFinish | screens/QuestionScreen.tsx:198-203 | pressing Finish stores and navigates iff the button is enabled, and otherwise changes nothing |
| QuestionScreen.Session.Tick | screens/QuestionScreen.tsx:52-62 | the clock follows AfterTick; the expiring tick finishes the test with 1800 seconds elapsed and overwrites the stored list; other ticks leave the store alone |
| QuestionScreen.Session.TickAsWritten | screens/QuestionScreen.tsx:50-62 | the same clock as Tick, but the expiring tick stores and passes on an elapsed time of 0, the first render's value, with the current answers |
| QuestionScreen.StaleTimeoutScenario | screens/QuestionScreen.tsx:50-62 | a test left to run out under TickAsWritten is saved with 0 seconds elapsed, though 1800 have passed, and its time reads "00:00" |
| QuestionScreen.TimeoutScenario | screens/QuestionScreen.tsx:52-62 | the same test under Tick is saved with 1800 seconds elapsed, and its time reads "30:00" |
| QuestionScreen.ShuffledTapScenario | screens/QuestionScreen.tsx:82-90 | tapping the option the screen colours correct, with the options shown swapped, is recorded as wrong |
| QuestionScreen.IntendedSelection | screens/QuestionScreen.tsx:163-180 | the tapped option's position in the question's own option list |
| QuestionScreen.IntendedSelectionScoresAsShown | screens/QuestionScreen.tsx:109 | with distinct options, scoring the intended selection agrees with the colour shown, for any shuffle |
| ResultScreen.NewResult | screens/ResultScreen.tsx:51-57 | the saved record has total == number of results and score + errors == total, with the given date and elapsed time |
| ResultScreen.SameRecordOnBothScreens | screens/ResultScreen.tsx:30-34 | given the same answers, time and date, the result screen's record equals the question screen's |
| ResultScreen.SaveToStorage | screens/ResultScreen.tsx:45-63 | the stored list for the test becomes the new record followed by the old list (empty when missing) |
| ResultScreen.YourAnswer | screens/ResultScreen.tsx:81 | a selection is shown as a numeral with no leading zero, so never "0"; a missing one as "None" |
| ResultScreen.CorrectAnswer | screens/ResultScreen.tsx:83 | the correct answer is shown as a numeral with no leading zero, so never "0" |
| ResultScreen.View | screens/ResultScreen.tsx:71-85 | the displayed total is the number of results, the time is the one passed in, and neither the correct count nor the number of cards exceeds the total |
| ResultScreen.AnswersShownOneBased | screens/ResultScreen.tsx:80-83 | a selection s is shown as the number s+1, a missing one as "None" (not a number), and the correct index c as c+1 |
| ResultScreen.StoredMatchesDisplayed | screens/ResultScreen.tsx:71-85 | the saved score, total, time and errors are the ones displayed, card by card and in order, and correct + cards == total |
| HomeScreen.LatestResult | screens/HomeScreen.tsx:37-44 | a test has a latest result iff a non-empty list is stored under its key, and then it is that list's head |
| HomeScreen.LoadResults | screens/HomeScreen.tsx:33-48 | the map has exactly tests 1, 2 and 3, each with the head of its stored list or nothing |
| HomeScreen.CardFor | screens/HomeScreen.tsx:84-93 | "Not taken yet" exactly when there is no latest result; otherwise that record's score, total, elapsed time and date |
| HomeScreen.NeverTakenShowsNotTaken | screens/HomeScreen.tsx:84-93 | a test with nothing stored shows "Not taken yet" |
| HomeScreen.LatestAfterPrepend | screens/HomeScreen.tsx:41 | after the result screen's prepend the latest result is the new record, and other tests are unaffected |
| HomeScreen.LatestAfterOverwrite | screens/HomeScreen.tsx:36-45 | after the question screen's overwrite the latest result is its record, and other tests are unaffected |
| HomeScreen.CompletedTestLeavesTwoRecords | screens/QuestionScreen.tsx:115-118 | one completed test leaves exactly [result screen's record, question screen's record], and when the home screen next loads it shows the first |
| HomeScreen.PlayOneQuestionTest | screens/HomeScreen.tsx:32-51 | answering, finishing, saving and reloading a one-question test stores two records, shows score 1 iff the tapped position equals the correct index, and leaves other keys alone |

## Left out

- Rendering is not modelled: styles, colours, layout, scrolling and the image lookup. The `Animated` progress bar is also left out (floating point, and a division by `questions.length - 1`).
- Navigation is not modelled. A `navigate` call becomes the returned `ResultParams`, and the home screen's start button is not modelled.
- AsyncStorage is a map held by the `Storage` class. Its asynchrony, I/O failures, the `try`/`catch` with `console.error`, and JSON encoding (the identity here) are not modelled.
- `Math.random` and `sort` are not modelled. `EnterQuestion` takes the shuffled list as input.
- Dates (`new Date().toISOString()`, `formatDate`) are opaque strings passed in as parameters.
- The test content (`TestDataMap`) and the question images are not part of this model. `Session` takes its questions as input. On an empty test `questions[0]` is `undefined`, and the screen fails when it reads `currentQuestion.options` in the entry effect (screens/QuestionScreen.tsx:68) or `currentQuestion.question` when rendering (screens/QuestionScreen.tsx:161). So the constructor requires at least one question.
- React's closure and re-render semantics are not modelled in general. The one place where they change the outcome, the first-render `finishTest` that the interval calls, is modelled by `TickAsWritten` (see Findings).
- QuestionScreen.Session.EnterQuestion: the model runs the entry effect as a separate step after Next or Back. Between the two steps, the selection and options of the previous question are still on screen. Events in that gap are not ruled out, and `Settled` holds only after the effect.
- The option colouring is not modelled beyond `ShownCorrect`. This includes the red highlight of `shuffledOptions[selected]`, which after a reshuffle may mark a different option from the one tapped.
- `formatTime` is modelled on non-negative whole seconds only. The screens never pass anything else.
- HomeScreen.LatestResult: `parsed[0]` of an empty stored list is `undefined`. The screen shows it like `null`, and the model makes both `None`.

## Findings

| source | as written | input that shows it | evidently intended | confidence | as-written member | corrected member |
|---|---|---|---|---|---|---|
| screens/QuestionScreen.tsx:90 | the answer stores the tapped position in the shuffled list, and line 109 compares it with the correct position in the unshuffled list | options ["stop", "yield"], correct 0, shown as ["yield", "stop"]; tapping position 1 ("stop", coloured correct by lines 82-83) records 1 and scores it wrong | record the tapped option's position in the question's own list, so that the score agrees with the colour shown | high; not executed | QuestionScreen.ShuffledTapScenario | QuestionScreen.IntendedSelectionScoresAsShown |
| screens/QuestionScreen.tsx:50 | the interval is set up once, on the first render (lines 52-65), so the `finishTest` it calls when time runs out computes `elapsedTime` from that render's `timeLeft`, which is 1800 | let the countdown run from 1800 to 0 without pressing Finish: the saved record and the result screen get `elapsedTime` 0, shown as "00:00" | a timed-out test records the 1800 seconds actually spent | medium; not executed | QuestionScreen.StaleTimeoutScenario | QuestionScreen.TimeoutScenario |

For the second row, `TickAsWritten` is the callback as written and `Tick` the corrected one. `Tick` finishes with `ElapsedTime()`, which is 1800 on the expiring tick. The scores are the same under both: every copy of the answer list shares the same records, and `handleSelect` sets `selected` on them in place (screens/QuestionScreen.tsx:89-90), so the first render's list sees the current selections.

For the first row, the session keeps the behaviour as written. `IntendedSelection` is the corrected rule. `IntendedSelectionScoresAsShown` proves that, with distinct options, the corrected rule scores an answer correct iff the screen colours it correct.
