/** The records the three screens pass to each other and persist.
    `Answer` is the navigator's `Answer` type; `ResultRecord` is what is
    stored (as JSON) under a test's results key. */
module Records {

  datatype Option<+T> = None | Some(value: T)

  /** An ISO timestamp string; the model never looks inside it. */
  type Date = string

  /** One question of a test, as the static test content supplies it. */
  datatype Question = Question(question: string, options: seq<string>, correct: nat)

  /** The per-question answer record: `selected` is null until the user picks
      an option, then the position that was picked. */
  datatype Answer = Answer(question: string, correct: nat, selected: Option<nat>)

  /** What both the question screen and the result screen write to storage. */
  datatype ResultRecord = ResultRecord(
    date: Date,
    score: nat,
    total: nat,
    elapsedTime: nat,
    errors: seq<Answer>)

  /** The route parameters the question screen hands to the result screen. */
  datatype ResultParams = ResultParams(results: seq<Answer>, elapsedTime: nat, testNumber: nat)
}
