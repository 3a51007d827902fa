/** The test session of the question screen: the current question, the
    on-screen selection, one answer record per question and the countdown,
    with the handlers that change them and the finish that scores the
    answers and stores the result. */
module QuestionScreen {
  import opened Records
  import opened Scoring
  import opened ResultStore
  import opened Decimal
  import TimeFormat

  /** Thirty minutes, in seconds. */
  const TOTAL_TIME: nat := 30 * 60

  /** `(route.params)?.testNumber || 1`: a missing or zero test number
      means test 1. */
  function ResolveTestNumber(param: Option<nat>): (n: nat)
    ensures n >= 1
    ensures param.Some? && param.value != 0 ==> n == param.value
    ensures n != 1 ==> param == Some(n)
  {
    if param.Some? && param.value != 0 then param.value else 1
  }

  /** The answer records agree with the questions, one by one, on the
      question text and the correct index. */
  ghost predicate Mirrors(answers: seq<Answer>, questions: seq<Question>) {
    && |answers| == |questions|
    && forall i :: 0 <= i < |answers| ==>
         answers[i].question == questions[i].question && answers[i].correct == questions[i].correct
  }

  /** `questions.map(q => ({question, correct, selected: null}))` */
  function InitialAnswers(questions: seq<Question>): (answers: seq<Answer>)
    ensures Mirrors(answers, questions)
    ensures forall i :: 0 <= i < |answers| ==> answers[i].selected == None
  {
    seq(|questions|, i requires 0 <= i < |questions| =>
      Answer(questions[i].question, questions[i].correct, None))
  }

  /** The initial records mirror the questions and are all unanswered, so a
      test finished at once scores 0 with every question listed as an error. */
  lemma InitialAnswersBlank(questions: seq<Question>)
    ensures Mirrors(InitialAnswers(questions), questions)
    ensures forall i :: 0 <= i < |questions| ==> InitialAnswers(questions)[i].selected == None
    ensures Score(InitialAnswers(questions)) == 0
    ensures Errors(InitialAnswers(questions)) == InitialAnswers(questions)
  {
    NothingAnswered(InitialAnswers(questions));
  }

  /** `answers.every(a => a.selected !== null)` */
  predicate AllAnswered(answers: seq<Answer>): (all: bool)
    ensures all ==> forall e :: e in Errors(answers) ==> e.selected.Some?
  {
    forall i :: 0 <= i < |answers| ==> answers[i].selected.Some?
  }

  /** An unanswered question always costs a point and shows up as an error;
      when everything is answered every error is a wrong pick. */
  lemma {:induction false} UnansweredCounts(answers: seq<Answer>)
    ensures !AllAnswered(answers) ==> Score(answers) < |answers| && |Errors(answers)| > 0
    ensures AllAnswered(answers) ==> forall e :: e in Errors(answers) ==> e.selected.Some?
  {
    ScorePlusErrors(answers);
    if !AllAnswered(answers) {
      var i :| 0 <= i < |answers| && answers[i].selected.None?;
      ErrorsComplete(answers, i);
    }
  }

  /** The record `finishTest` stores: the score, the total, the elapsed time
      and the wrong or missing answers. */
  function ResultData(date: Date, answers: seq<Answer>, elapsedTime: nat): (r: ResultRecord)
    ensures r.date == date && r.elapsedTime == elapsedTime
    ensures r.total == |answers| && r.score + |r.errors| == r.total
    ensures forall a :: a in r.errors <==> a in answers && !IsCorrect(a)
  {
    ScorePlusErrors(answers);
    assert forall i :: 0 <= i < |answers| && !IsCorrect(answers[i]) ==> answers[i] in Errors(answers) by {
      forall i | 0 <= i < |answers| && !IsCorrect(answers[i]) ensures answers[i] in Errors(answers) {
        ErrorsComplete(answers, i);
      }
    }
    ResultRecord(date, Score(answers), |answers|, elapsedTime, Errors(answers))
  }

  /** The countdown: seconds left and whether the interval still runs. */
  datatype Clock = Clock(timeLeft: nat, running: bool)

  /** The countdown stays within the time budget, and the interval runs
      exactly while time is left. */
  ghost predicate ClockOk(c: Clock) {
    c.timeLeft <= TOTAL_TIME && (c.running <==> c.timeLeft > 0)
  }

  /** This tick is the one that clears the interval and finishes the test. */
  predicate Expires(c: Clock) {
    c.running && c.timeLeft <= 1
  }

  /** One interval callback: `prev <= 1` stops the interval at 0, otherwise
      one second is taken off. A cleared interval does not call back. */
  function AfterTick(c: Clock): (c': Clock)
    ensures ClockOk(c) ==> ClockOk(c')
    ensures c'.timeLeft <= c.timeLeft
    ensures c.running && !Expires(c) ==> c'.timeLeft == c.timeLeft - 1 && c'.running
    ensures Expires(c) ==> c' == Clock(0, false)
  {
    if !c.running then c
    else if c.timeLeft <= 1 then Clock(0, false)
    else Clock(c.timeLeft - 1, true)
  }

  /** The clock after `k` callbacks, and how many of them finished the test. */
  function RunTicks(c: Clock, k: nat): (Clock, nat)
    decreases k
  {
    if k == 0 then (c, 0)
    else
      var (end, fired) := RunTicks(AfterTick(c), k - 1);
      (end, fired + if Expires(c) then 1 else 0)
  }

  lemma {:induction false} StoppedClockStays(k: nat)
    ensures RunTicks(Clock(0, false), k) == (Clock(0, false), 0)
  {
    if k > 0 {
      StoppedClockStays(k - 1);
    }
  }

  /** From `t` seconds left, `k` callbacks leave `t - k` seconds while
      `k < t`; the `t`-th one finishes the test, and it is the only one. */
  lemma {:induction false} TicksFromRunning(t: nat, k: nat)
    requires t >= 1
    ensures RunTicks(Clock(t, true), k) ==
      if k < t then (Clock(t - k, true), 0) else (Clock(0, false), 1)
    decreases k
  {
    if k > 0 {
      if t == 1 {
        StoppedClockStays(k - 1);
      } else {
        TicksFromRunning(t - 1, k - 1);
      }
    }
  }

  /** A fresh countdown finishes the test on its 1800th callback, exactly once. */
  lemma FinishFiresOnLastSecond(k: nat)
    ensures RunTicks(Clock(TOTAL_TIME, true), k).1 == if k < TOTAL_TIME then 0 else 1
    ensures k <= TOTAL_TIME ==> RunTicks(Clock(TOTAL_TIME, true), k).0.timeLeft == TOTAL_TIME - k
  {
    TicksFromRunning(TOTAL_TIME, k);
  }

  /** `isCorrect(option)`: the colour the screen gives a tapped option
      compares its text with the text of the correct option. */
  predicate ShownCorrect(q: Question, option: string): (shown: bool)
    ensures shown ==> option in q.options
  {
    q.correct < |q.options| && option == q.options[q.correct]
  }

  class Session {
    const testNumber: nat
    const questions: seq<Question>
    var currentQuestionIndex: nat
    /** The on-screen selection: a position in `shuffledOptions`. */
    var selected: Option<nat>
    var shuffledOptions: seq<string>
    var answers: seq<Answer>
    var timeLeft: nat
    /** Whether the one-second interval is still set. */
    var ticking: bool

    ghost predicate Valid()
      reads this
    {
      && |questions| > 0
      && currentQuestionIndex < |questions|
      && Mirrors(answers, questions)
      && ClockOk(Clock(timeLeft, ticking))
    }

    /** After the entry effect of the current question has run: the selection
        shows the question's answer record and the displayed options are a
        rearrangement of the question's options. */
    ghost predicate Settled()
      reads this
      requires Valid()
    {
      && selected == answers[currentQuestionIndex].selected
      && multiset(shuffledOptions) == multiset(questions[currentQuestionIndex].options)
    }

    /** The first render, before any effect has run. The screen reads
        `questions[0]`, so it needs at least one question; its test number
        is the one `ResolveTestNumber` gives, so at least 1. */
    constructor (testNumber: nat, questions: seq<Question>)
      requires testNumber >= 1
      requires |questions| > 0
      ensures Valid()
      ensures this.testNumber == testNumber && this.questions == questions
      ensures answers == InitialAnswers(questions)
      ensures currentQuestionIndex == 0 && selected == None && shuffledOptions == []
      ensures timeLeft == TOTAL_TIME && ticking
    {
      this.testNumber := testNumber;
      this.questions := questions;
      currentQuestionIndex := 0;
      selected := None;
      shuffledOptions := [];
      answers := InitialAnswers(questions);
      timeLeft := TOTAL_TIME;
      ticking := true;
      new;
      InitialAnswersBlank(questions);
    }

    /** `TOTAL_TIME - timeLeft` */
    function ElapsedTime(): (e: nat)
      reads this
      requires Valid()
      ensures e <= TOTAL_TIME && e + timeLeft == TOTAL_TIME
    {
      TOTAL_TIME - timeLeft
    }

    /** The entry effect, run whenever `currentQuestionIndex` changes (and on
        mount): the options are shuffled afresh, on every visit, and the
        selection is restored from the answer record. `shuffled` is the order
        `sort` with a random comparator produced. */
    method EnterQuestion(shuffled: seq<string>)
      requires Valid()
      requires multiset(shuffled) == multiset(questions[currentQuestionIndex].options)
      modifies this
      ensures Valid() && Settled()
      ensures shuffledOptions == shuffled
      ensures selected == answers[currentQuestionIndex].selected
      ensures currentQuestionIndex == old(currentQuestionIndex) && answers == old(answers)
      ensures timeLeft == old(timeLeft) && ticking == old(ticking)
    {
      shuffledOptions := shuffled;
      selected := answers[currentQuestionIndex].selected;
    }

    /** `handleSelect(index)`: ignored once something is selected; otherwise
        the selection and the current answer record both take `index`. */
    method HandleSelect(index: nat)
      requires Valid()
      modifies this
      ensures Valid()
      ensures old(selected).Some? ==> selected == old(selected) && answers == old(answers)
      ensures old(selected).None? ==> selected == Some(index) && |answers| == |old(answers)|
      ensures old(selected).None? ==>
        (answers[currentQuestionIndex] == old(answers[currentQuestionIndex]).(selected := Some(index)))
      ensures forall i :: 0 <= i < |answers| && i != currentQuestionIndex ==> answers[i] == old(answers[i])
      ensures old(Settled()) ==> Settled()
      ensures old(Settled()) ==> forall i :: 0 <= i < |answers| && old(answers[i].selected).Some? ==>
        answers[i] == old(answers[i])
      ensures currentQuestionIndex == old(currentQuestionIndex) && shuffledOptions == old(shuffledOptions)
      ensures timeLeft == old(timeLeft) && ticking == old(ticking)
    {
      if selected.Some? {
        return;
      }
      selected := Some(index);
      answers := answers[currentQuestionIndex := answers[currentQuestionIndex].(selected := Some(index))];
    }

    /** `handleNext`: one question on, unless this is the last one. */
    method HandleNext()
      requires Valid()
      modifies this
      ensures Valid()
      ensures currentQuestionIndex == if old(currentQuestionIndex) < |questions| - 1
        then old(currentQuestionIndex) + 1 else old(currentQuestionIndex)
      ensures selected == old(selected) && shuffledOptions == old(shuffledOptions) && answers == old(answers)
      ensures timeLeft == old(timeLeft) && ticking == old(ticking)
    {
      if currentQuestionIndex < |questions| - 1 {
        currentQuestionIndex := currentQuestionIndex + 1;
      }
    }

    /** `handleBack`: one question back, unless this is the first one. */
    method HandleBack()
      requires Valid()
      modifies this
      ensures Valid()
      ensures currentQuestionIndex == if old(currentQuestionIndex) > 0
        then old(currentQuestionIndex) - 1 else old(currentQuestionIndex)
      ensures selected == old(selected) && shuffledOptions == old(shuffledOptions) && answers == old(answers)
      ensures timeLeft == old(timeLeft) && ticking == old(ticking)
    {
      if currentQuestionIndex > 0 {
        currentQuestionIndex := currentQuestionIndex - 1;
      }
    }

    /** `isLastQuestion` */
    function IsLastQuestion(): (last: bool)
      reads this
      requires Valid()
      ensures last <==> currentQuestionIndex + 1 == |questions|
    {
      currentQuestionIndex == |questions| - 1
    }

    /** The Finish button is shown on the last question and enabled once every
        question has an answer; then no error is a missing answer. */
    function CanFinish(): (enabled: bool)
      reads this
      requires Valid()
      ensures enabled ==> IsLastQuestion()
      ensures enabled ==> forall e :: e in Errors(answers) ==> e.selected.Some?
      ensures !AllAnswered(answers) ==> !enabled
    {
      UnansweredCounts(answers);
      IsLastQuestion() && AllAnswered(answers)
    }

    /** `finishTest`: the scored record replaces whatever was stored for this
        test, and the answers and elapsed time go on to the result screen. */
    method FinishTest(store: Storage, date: Date) returns (nav: ResultParams)
      requires Valid()
      modifies store
      ensures store.items == Overwrite(old(store.items), Key(testNumber), ResultData(date, answers, ElapsedTime()))
      ensures nav == ResultParams(answers, ElapsedTime(), testNumber)
    {
      var resultData := ResultData(date, answers, TOTAL_TIME - timeLeft);
      store.SetItem(Key(testNumber), [resultData]);
      nav := ResultParams(answers, TOTAL_TIME - timeLeft, testNumber);
    }

    /** A press on Finish: nothing happens while the button is disabled. */
    method PressFinish(store: Storage, date: Date) returns (nav: Option<ResultParams>)
      requires Valid()
      modifies store
      ensures nav.Some? <==> CanFinish()
      ensures CanFinish() ==> nav.value == ResultParams(answers, ElapsedTime(), testNumber)
      ensures CanFinish() ==>
        (store.items == Overwrite(old(store.items), Key(testNumber), ResultData(date, answers, ElapsedTime())))
      ensures !CanFinish() ==> store.items == old(store.items)
    {
      if CanFinish() {
        var params := FinishTest(store, date);
        nav := Some(params);
      } else {
        nav := None;
      }
    }

    /** One interval callback. The callback that finds at most one second
        left clears the interval, sets the countdown to 0 and finishes the
        test whatever has been answered. */
    method Tick(store: Storage, date: Date) returns (nav: Option<ResultParams>)
      requires Valid()
      modifies this, store
      ensures Valid()
      ensures Clock(timeLeft, ticking) == AfterTick(old(Clock(timeLeft, ticking)))
      ensures nav.Some? <==> Expires(old(Clock(timeLeft, ticking)))
      ensures nav.Some? ==> ElapsedTime() == TOTAL_TIME && nav.value.elapsedTime == ElapsedTime()
      ensures nav.Some? ==> nav.value == ResultParams(answers, TOTAL_TIME, testNumber)
      ensures nav.Some? ==>
        (store.items == Overwrite(old(store.items), Key(testNumber), ResultData(date, answers, TOTAL_TIME)))
      ensures nav.None? ==> store.items == old(store.items)
      ensures currentQuestionIndex == old(currentQuestionIndex) && selected == old(selected)
      ensures shuffledOptions == old(shuffledOptions) && answers == old(answers)
    {
      if !ticking {
        nav := None;
        return;
      }
      if timeLeft <= 1 {
        ticking := false;
        timeLeft := 0;
        var params := FinishTest(store, date);
        nav := Some(params);
      } else {
        timeLeft := timeLeft - 1;
        nav := None;
      }
    }

    /** The interval callback as the app runs it. The interval is set up on
        the first render, so the `finishTest` it calls is that render's, whose
        `elapsedTime` is `TOTAL_TIME - TOTAL_TIME`, that is 0. The answers it
        scores are the current ones: every copy of the answer list shares the
        same records, and `handleSelect` sets `selected` on them in place. */
    method TickAsWritten(store: Storage, date: Date) returns (nav: Option<ResultParams>)
      requires Valid()
      modifies this, store
      ensures Valid()
      ensures Clock(timeLeft, ticking) == AfterTick(old(Clock(timeLeft, ticking)))
      ensures nav.Some? <==> Expires(old(Clock(timeLeft, ticking)))
      ensures nav.Some? ==> nav.value == ResultParams(answers, 0, testNumber)
      ensures nav.Some? ==>
        (store.items == Overwrite(old(store.items), Key(testNumber), ResultData(date, answers, 0)))
      ensures nav.None? ==> store.items == old(store.items)
      ensures currentQuestionIndex == old(currentQuestionIndex) && selected == old(selected)
      ensures shuffledOptions == old(shuffledOptions) && answers == old(answers)
    {
      if !ticking {
        nav := None;
        return;
      }
      if timeLeft <= 1 {
        ticking := false;
        timeLeft := 0;
        var firstRenderElapsed := TOTAL_TIME - TOTAL_TIME;
        store.SetItem(Key(testNumber), [ResultData(date, answers, firstRenderElapsed)]);
        nav := Some(ResultParams(answers, firstRenderElapsed, testNumber));
      } else {
        timeLeft := timeLeft - 1;
        nav := None;
      }
    }
  }

  /** A test left to run out, as the app runs it: when the countdown has
      gone from 1800 to 0, the record saved and passed on says no time was
      spent, and the result screen shows "00:00". */
  method StaleTimeoutScenario(q: Question, date: Date) returns (recorded: nat, spent: nat, shown: string)
    ensures recorded == 0 && spent == TOTAL_TIME && shown == "00:00"
  {
    var store := new Storage(map[]);
    var session := new Session(1, [q]);
    var nav: Option<ResultParams> := None;
    while session.ticking
      invariant session.Valid() && session.testNumber == 1
      invariant session.ticking ==> nav.None?
      invariant !session.ticking ==> nav.Some? && nav.value.elapsedTime == 0 && session.timeLeft == 0
      invariant !session.ticking ==> Key(1) in store.items && store.items[Key(1)] == [ResultData(date, session.answers, 0)]
      decreases session.timeLeft
    {
      nav := session.TickAsWritten(store, date);
    }
    recorded := store.items[Key(1)][0].elapsedTime;
    spent := session.ElapsedTime();
    TimeFormat.NoTimeShown();
    shown := TimeFormat.FormatTime(nav.value.elapsedTime);
  }

  /** The full thirty minutes read "30:00". */
  lemma FullTimeShown()
    ensures TimeFormat.FormatTime(TOTAL_TIME) == "30:00"
  {
    assert NatToString(3) == "3" && NatToString(0) == "0";
    assert NatToString(30) == "30";
    assert TimeFormat.TwoDigits(30) == "30" && TimeFormat.TwoDigits(0) == "00";
  }

  /** The same test with the callback finishing on the current render's
      `elapsedTime`: the record says the whole 30 minutes were spent. */
  method TimeoutScenario(q: Question, date: Date) returns (recorded: nat, spent: nat, shown: string)
    ensures recorded == spent == TOTAL_TIME && shown == "30:00"
  {
    var store := new Storage(map[]);
    var session := new Session(1, [q]);
    var nav: Option<ResultParams> := None;
    while session.ticking
      invariant session.Valid() && session.testNumber == 1
      invariant session.ticking ==> nav.None?
      invariant !session.ticking ==> nav.Some? && nav.value.elapsedTime == TOTAL_TIME && session.timeLeft == 0
      invariant !session.ticking ==> Key(1) in store.items && store.items[Key(1)] == [ResultData(date, session.answers, TOTAL_TIME)]
      decreases session.timeLeft
    {
      nav := session.Tick(store, date);
    }
    recorded := store.items[Key(1)][0].elapsedTime;
    spent := session.ElapsedTime();
    FullTimeShown();
    shown := TimeFormat.FormatTime(nav.value.elapsedTime);
  }

  /** The selection is recorded as a position in the shuffled list but scored
      against the correct option's position in the original list. Here the
      two options are shown swapped and the user taps the correct one: the
      screen colours it correct, the record counts it wrong. */
  method ShuffledTapScenario() returns (shownCorrect: bool, scoredCorrect: bool)
    ensures shownCorrect && !scoredCorrect
  {
    var q := Question("Which sign?", ["stop", "yield"], 0);
    var session := new Session(1, [q]);
    session.EnterQuestion(["yield", "stop"]);
    session.HandleSelect(1);
    shownCorrect := ShownCorrect(q, session.shuffledOptions[1]);
    scoredCorrect := IsCorrect(session.answers[0]);
  }

  /** The first position of `x` in `s` (`indexOf`). */
  function IndexOf(s: seq<string>, x: string): (i: nat)
    requires x in s
    ensures i < |s| && s[i] == x
    ensures forall j :: 0 <= j < i ==> s[j] != x
  {
    if s[0] == x then 0 else 1 + IndexOf(s[1..], x)
  }

  /** The selection the screen evidently means to record: the position in
      the question's own option list of the option that was tapped. */
  function IntendedSelection(q: Question, shuffled: seq<string>, index: nat): (r: nat)
    requires index < |shuffled| && multiset(shuffled) == multiset(q.options)
    ensures r < |q.options| && q.options[r] == shuffled[index]
  {
    assert shuffled[index] in multiset(q.options);
    IndexOf(q.options, shuffled[index])
  }

  /** With distinct options, scoring the intended selection agrees with the
      colour the screen shows, whatever order the options were shown in. */
  lemma IntendedSelectionScoresAsShown(q: Question, shuffled: seq<string>, index: nat)
    requires index < |shuffled| && multiset(shuffled) == multiset(q.options)
    requires forall i, j :: 0 <= i < j < |q.options| ==> q.options[i] != q.options[j]
    ensures IsCorrect(Answer(q.question, q.correct, Some(IntendedSelection(q, shuffled, index))))
      <==> ShownCorrect(q, shuffled[index])
  {
  }
}
