/** The scoring rules the question screen applies when it saves a result
    and the result screen applies again when it displays and saves one:
    the score counts the answers whose selection equals the correct index,
    the errors are the other answers in their original order, and the
    total is the number of answers. */
module Scoring {
  import opened Records

  /** `a.selected === a.correct`: a null selection never equals a number. */
  predicate IsCorrect(a: Answer) {
    a.selected == Some(a.correct)
  }

  /** `answers.filter(a => a.selected === a.correct).length` */
  function Score(answers: seq<Answer>): (n: nat)
    ensures n <= |answers|
  {
    if answers == [] then 0
    else (if IsCorrect(answers[0]) then 1 else 0) + Score(answers[1..])
  }

  /** `answers.filter(a => a.selected !== a.correct)` */
  function Errors(answers: seq<Answer>): (errs: seq<Answer>)
    ensures |errs| <= |answers|
    ensures forall e :: e in errs ==> e in answers && !IsCorrect(e)
  {
    if answers == [] then []
    else (if IsCorrect(answers[0]) then [] else [answers[0]]) + Errors(answers[1..])
  }

  /** Every answer is either counted in the score or listed as an error. */
  lemma {:induction false} ScorePlusErrors(answers: seq<Answer>)
    ensures Score(answers) + |Errors(answers)| == |answers|
  {
    if answers != [] {
      ScorePlusErrors(answers[1..]);
    }
  }

  /** An answer that is not correct (a null one included) is always listed. */
  lemma {:induction false} ErrorsComplete(answers: seq<Answer>, i: nat)
    requires i < |answers| && !IsCorrect(answers[i])
    ensures answers[i] in Errors(answers)
  {
    if i > 0 {
      ErrorsComplete(answers[1..], i - 1);
    }
  }

  /** Scoring a concatenation scores the parts: the errors keep the order
      of the answers they come from. */
  lemma {:induction false} ScoringDistributes(a: seq<Answer>, b: seq<Answer>)
    ensures Score(a + b) == Score(a) + Score(b)
    ensures Errors(a + b) == Errors(a) + Errors(b)
  {
    if a == [] {
      assert a + b == b;
    } else {
      var ab := a + b;
      assert ab[0] == a[0];
      assert ab[1..] == a[1..] + b;
      ScoringDistributes(a[1..], b);
      var head := if IsCorrect(a[0]) then [] else [a[0]];
      calc {
        Errors(ab);
        head + Errors(a[1..] + b);
        head + (Errors(a[1..]) + Errors(b));
        (head + Errors(a[1..])) + Errors(b);
      }
    }
  }

  /** The score equals the total exactly when every answer is correct, and
      then the error list is empty. */
  lemma {:induction false} FullScore(answers: seq<Answer>)
    ensures Score(answers) == |answers| <==> forall i :: 0 <= i < |answers| ==> IsCorrect(answers[i])
    ensures Score(answers) == |answers| ==> Errors(answers) == []
  {
    ScorePlusErrors(answers);
    if answers != [] {
      FullScore(answers[1..]);
      if !IsCorrect(answers[0]) {
        assert Score(answers) < |answers|;
      }
      assert forall i :: 1 <= i < |answers| ==> answers[i] == answers[1..][i - 1];
    }
  }

  /** With no answer selected the score is 0 and every answer is an error. */
  lemma {:induction false} NothingAnswered(answers: seq<Answer>)
    requires forall i :: 0 <= i < |answers| ==> answers[i].selected == None
    ensures Score(answers) == 0
    ensures Errors(answers) == answers
  {
    if answers != [] {
      NothingAnswered(answers[1..]);
    }
  }

  /** Three questions: the first answered correctly, the second wrongly and
      the third left unanswered. */
  lemma ScoringScenario(q1: string, q2: string, q3: string)
    ensures var answers := [Answer(q1, 0, Some(0)), Answer(q2, 1, Some(2)), Answer(q3, 3, None)];
      Score(answers) == 1 && Errors(answers) == answers[1..]
  {
    var answers := [Answer(q1, 0, Some(0)), Answer(q2, 1, Some(2)), Answer(q3, 3, None)];
    var tail, last := answers[1..], answers[2..];
    assert tail[1..] == last && last[1..] == [];
    assert Score(last) == 0 && Errors(last) == last;
    assert Score(tail) == 0 && Errors(tail) == [answers[1]] + last;
  }
}
