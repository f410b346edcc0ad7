/**
 * The quiz service's rules for one quiz: starting a quiz hands back its
 * tier's settings, and an attempt result may be recorded only while the quiz
 * is in progress, which finishes it as solved or failed.
 */
module Quiz {
  import opened Wrappers
  import opened Difficulty
  import opened WordSelection

  datatype QuizStatus = InProgress | Solved | Failed

  /** The exceptions the service throws: no such quiz, or a quiz already finished. */
  datatype QuizError = InvalidQuiz | FinishedQuiz

  /** A stored quiz; only the attempt count and the status are ever updated. */
  class Quiz {
    const uuid: string
    const difficulty: QuizDifficulty
    const word: string
    var attempts: int
    var status: QuizStatus

    constructor (uuid: string, difficulty: QuizDifficulty, word: string, attempts: int, status: QuizStatus)
      ensures this.uuid == uuid && this.difficulty == difficulty && this.word == word
      ensures this.attempts == attempts && this.status == status
    {
      this.uuid := uuid;
      this.difficulty := difficulty;
      this.word := word;
      this.attempts := attempts;
      this.status := status;
    }
  }

  /**
   * The status change an attempt result causes: only an in-progress quiz
   * moves, to SOLVED when solved and to FAILED otherwise; a finished quiz is
   * refused.
   */
  function SolveTransition(status: QuizStatus, solved: bool): (r: Result<QuizStatus, QuizError>)
    ensures r.Success? <==> status == InProgress
    ensures r.Failure? ==> r.error == FinishedQuiz
    ensures r.Success? ==> r.value != InProgress && (r.value == Solved <==> solved)
  {
    if status != InProgress then Failure(FinishedQuiz)
    else Success(if solved then Solved else Failed)
  }

  /** A quiz is finished by its first recorded result: any second one is refused. */
  lemma SolvedAtMostOnce(status: QuizStatus, first: bool, second: bool)
    requires SolveTransition(status, first).Success?
    ensures SolveTransition(SolveTransition(status, first).value, second) == Failure(FinishedQuiz)
  {
  }

  /**
   * Records an attempt result on the quiz the repository found (`null` when
   * none). A missing quiz and a finished quiz are errors that change nothing;
   * otherwise the attempts are stored and the status follows SolveTransition.
   */
  method SolveQuiz(quiz: Quiz?, attempts: int, solved: bool) returns (r: Result<Quiz, QuizError>)
    modifies quiz
    ensures quiz == null ==> r == Failure(InvalidQuiz)
    ensures quiz != null && old(quiz.status) != InProgress ==>
      r == Failure(FinishedQuiz) && unchanged(quiz)
    ensures quiz != null && old(quiz.status) == InProgress ==>
      && r == Success(quiz)
      && quiz.attempts == attempts
      && Success(quiz.status) == SolveTransition(old(quiz.status), solved)
  {
    if quiz == null {
      return Failure(InvalidQuiz);
    }
    if quiz.status != InProgress {
      return Failure(FinishedQuiz);
    }
    quiz.attempts := attempts;
    quiz.status := if solved then Solved else Failed;
    r := Success(quiz);
  }

  /**
   * Starting a quiz returns the map entry of its tier with no fallback
   * (Lookup). It agrees with the settings its word was selected with on every
   * tier; for any other value the word is selected with EASY's settings while
   * the quiz reports none.
   */
  lemma StartAndSelectionAgree(key: string)
    ensures Lookup(key).Some? ==> SelectionConfig(key) == Lookup(key).value
    ensures Lookup(key).None? ==> SelectionConfig(key) == ConfigFor(Easy)
  {
  }
}
