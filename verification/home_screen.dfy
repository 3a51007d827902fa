/** The home screen: for each available test, the latest stored result or
    nothing, and the card that shows it. Also the history one completed test
    leaves behind, from the question screen's write to the home screen's
    read. */
module HomeScreen {
  import opened Records
  import opened ResultStore
  import QuestionScreen
  import ResultScreen

  const AvailableTests: seq<nat> := [1, 2, 3]

  /** `resultMap[num]` for one test: `parsed[0]` when something is stored,
      `null` otherwise. An empty stored list gives `undefined`, which the
      screen treats like `null`; both are `None` here. */
  function LatestResult(items: Items, n: nat): (latest: Option<ResultRecord>)
    ensures latest.Some? <==> Key(n) in items && |items[Key(n)]| > 0
    ensures latest.Some? ==> latest.value == items[Key(n)][0]
  {
    if Key(n) in items && |items[Key(n)]| > 0 then Some(items[Key(n)][0]) else None
  }

  /** `loadResults`: one entry per available test, filled in test by test. */
  method LoadResults(store: Storage) returns (resultMap: map<nat, Option<ResultRecord>>)
    ensures resultMap.Keys == {1, 2, 3}
    ensures forall n :: n in resultMap ==> resultMap[n] == LatestResult(store.items, n)
  {
    resultMap := map[];
    var i := 0;
    while i < |AvailableTests|
      invariant 0 <= i <= |AvailableTests|
      invariant resultMap.Keys == set j | 0 <= j < i :: AvailableTests[j]
      invariant forall n :: n in resultMap ==> resultMap[n] == LatestResult(store.items, n)
    {
      var num := AvailableTests[i];
      var stored := store.GetItem(Key(num));
      if stored.Some? {
        var parsed := stored.value;
        resultMap := resultMap[num := if |parsed| > 0 then Some(parsed[0]) else None];
      } else {
        resultMap := resultMap[num := None];
      }
      i := i + 1;
    }
    assert AvailableTests[0] == 1 && AvailableTests[1] == 2 && AvailableTests[2] == 3;
  }

  /** What one test's button shows below its title: "Not taken yet", or
      `score/total`, `formatTime(elapsedTime)` and the date. */
  datatype TestCard = NotTakenYet | Taken(score: nat, total: nat, elapsedTime: nat, date: Date)

  /** The card for a test's latest result: "Not taken yet" exactly when there
      is none, and otherwise that record's numbers and date. */
  function CardFor(latest: Option<ResultRecord>): (card: TestCard)
    ensures card.NotTakenYet? <==> latest.None?
    ensures latest.Some? ==> card.score == latest.value.score && card.total == latest.value.total
    ensures latest.Some? ==> card.elapsedTime == latest.value.elapsedTime && card.date == latest.value.date
  {
    match latest
    case None => NotTakenYet
    case Some(r) => Taken(r.score, r.total, r.elapsedTime, r.date)
  }

  /** A test nothing was ever stored for reads "Not taken yet". */
  lemma NeverTakenShowsNotTaken(items: Items, n: nat)
    requires Key(n) !in items
    ensures CardFor(LatestResult(items, n)) == NotTakenYet
  {
  }

  /** After a prepend the latest result is the record just prepended, and
      the latest result of every other test is what it was. */
  lemma LatestAfterPrepend(items: Items, n: nat, m: nat, r: ResultRecord)
    ensures LatestResult(Prepend(items, Key(n), r), n) == Some(r)
    ensures m != n ==> LatestResult(Prepend(items, Key(n), r), m) == LatestResult(items, m)
  {
    KeyInjective(n, m);
  }

  /** Likewise after the question screen's overwrite. */
  lemma LatestAfterOverwrite(items: Items, n: nat, m: nat, r: ResultRecord)
    ensures LatestResult(Overwrite(items, Key(n), r), n) == Some(r)
    ensures m != n ==> LatestResult(Overwrite(items, Key(n), r), m) == LatestResult(items, m)
  {
    KeyInjective(n, m);
  }

  /** One completed test: the question screen overwrites the test's entry
      with its record, then the result screen prepends its own. Whatever
      history there was is gone; exactly two records remain, the result
      screen's first, and the home screen shows the result screen's. */
  lemma CompletedTestLeavesTwoRecords(items: Items, params: ResultParams, finished: Date, shown: Date)
    ensures var key := Key(params.testNumber);
      var first := QuestionScreen.ResultData(finished, params.results, params.elapsedTime);
      var second := ResultScreen.NewResult(shown, params);
      var after := Prepend(Overwrite(items, key, first), key, second);
      && after[key] == [second, first]
      && LatestResult(after, params.testNumber) == Some(second)
      && CardFor(LatestResult(after, params.testNumber)).score + |second.errors| == |params.results|
  {
  }

  /** The whole round trip on the session objects: a one-question test
      answered and finished, its result screen saved, and the home screen
      loaded again. */
  method PlayOneQuestionTest(store: Storage, q: Question, shuffled: seq<string>, tap: nat, finished: Date, shown: Date)
    returns (home: map<nat, Option<ResultRecord>>)
    requires multiset(shuffled) == multiset(q.options)
    modifies store
    ensures Key(1) in store.items && |store.items[Key(1)]| == 2
    ensures 1 in home && home[1] == Some(store.items[Key(1)][0])
    ensures home[1].value.total == 1
    ensures home[1].value.score == if tap == q.correct then 1 else 0
    ensures forall k :: k in old(store.items) && k != Key(1) ==> k in store.items && store.items[k] == old(store.items)[k]
  {
    var session := new QuestionScreen.Session(1, [q]);
    session.EnterQuestion(shuffled);
    session.HandleSelect(tap);
    var nav := session.PressFinish(store, finished);
    assert nav.Some?;
    ResultScreen.SaveToStorage(store, nav.value, shown);
    home := LoadResults(store);
    assert session.answers == [Answer(q.question, q.correct, Some(tap))];
    assert session.answers[1..] == [];
  }
}
