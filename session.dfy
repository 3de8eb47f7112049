/**
 * The quiz session of Quiz.jsx as values: the seven pieces of React state,
 * the snapshot written to the progress store, and one function per
 * transition. The class QuizPage.Quiz updates its fields as these functions
 * say; the lemmas here are about sequences of transitions.
 */
module QuizSession {
  import opened Trivia

  /** Seconds allowed for each question: the initial timer and the reset value. */
  const QuestionSeconds: int := 10

  /** The component state of Quiz.jsx, one field per `useState`. */
  datatype Session = Session(
    questions: seq<QuestionRecord>,
    currentQuestionIndex: int,
    correctAnswers: int,
    timer: int,
    quizFinished: bool,
    quizStarted: bool,
    answeredQuestions: int)

  /** The object stored under `quizProgress_<username>` (JSON encoding is the identity here). */
  datatype Snapshot = Snapshot(
    savedQuestions: seq<QuestionRecord>,
    savedCurrentQuestionIndex: int,
    savedCorrectAnswers: int,
    savedTimer: int,
    savedQuizFinished: bool,
    savedAnsweredQuestions: int)

  /** What the question request delivers: a batch of records, or a rejected promise. */
  datatype FetchOutcome = Fetched(batch: seq<QuestionRecord>) | FetchFailed

  /** The state on first render: no questions, counters zero, timer full. */
  function Initial(): (r: Session)
    ensures !r.quizStarted && |r.questions| == 0 && r.timer == QuestionSeconds
    ensures Inv(r) && Settled(r)
  {
    Session([], 0, 0, QuestionSeconds, false, false, 0)
  }

  /**
   * What every snapshot written by a running session satisfies: the counters
   * are ordered, the index is in range (or zero while no questions are
   * loaded), an unfinished session has answered exactly the questions before
   * the current one, and the timer lies between 0 and its reset value.
   */
  predicate SnapshotValid(p: Snapshot) {
    && 0 <= p.savedCorrectAnswers <= p.savedAnsweredQuestions <= |p.savedQuestions|
    && 0 <= p.savedCurrentQuestionIndex
    && (p.savedCurrentQuestionIndex == 0 || p.savedCurrentQuestionIndex < |p.savedQuestions|)
    && (!p.savedQuizFinished ==> p.savedAnsweredQuestions == p.savedCurrentQuestionIndex)
    && 0 <= p.savedTimer <= QuestionSeconds
  }

  /** The snapshot the save effect builds from the current state. */
  function SnapshotOf(s: Session): Snapshot {
    Snapshot(s.questions, s.currentQuestionIndex, s.correctAnswers, s.timer,
             s.quizFinished, s.answeredQuestions)
  }

  /** The state the restore effect produces from a stored snapshot. */
  function Restored(p: Snapshot): (r: Session)
    ensures r.quizStarted
    ensures SnapshotOf(r) == p
  {
    Session(p.savedQuestions, p.savedCurrentQuestionIndex, p.savedCorrectAnswers,
            p.savedTimer, p.savedQuizFinished, true, p.savedAnsweredQuestions)
  }

  /**
   * The session invariant: the snapshot invariant, and before the quiz is
   * started every counter holds its initial value.
   */
  predicate Inv(s: Session) {
    && SnapshotValid(SnapshotOf(s))
    && (!s.quizStarted ==>
          && !s.quizFinished
          && s.currentQuestionIndex == 0
          && s.correctAnswers == 0
          && s.answeredQuestions == 0
          && s.timer == QuestionSeconds)
  }

  /** The timer effect has run since the last change: a running quiz never shows 0 seconds. */
  predicate Settled(s: Session) {
    s.quizStarted && !s.quizFinished ==> s.timer != 0
  }

  /** A question is on screen, so its answer buttons can be clicked (Quiz.jsx:134, 157, 173-174). */
  predicate CanAnswer(s: Session) {
    && s.quizStarted
    && !s.quizFinished
    && |s.questions| > 0
    && s.currentQuestionIndex < |s.questions|
  }

  /** handleStart. */
  function Start(s: Session): (r: Session)
    ensures r.quizStarted
    ensures Inv(s) ==> Inv(r) && (Settled(s) ==> Settled(r))
    ensures r.(quizStarted := s.quizStarted) == s
  {
    s.(quizStarted := true)
  }

  /** handleNext(isCorrect), callable only while a question is shown. */
  function Next(s: Session, isCorrect: bool): (r: Session)
    requires CanAnswer(s)
    ensures r.questions == s.questions && r.quizStarted
    ensures r.correctAnswers - s.correctAnswers == (if isCorrect then 1 else 0)
    ensures r.answeredQuestions == s.answeredQuestions + 1
    ensures r.timer == QuestionSeconds
    ensures r.quizFinished <==> s.currentQuestionIndex == |s.questions| - 1
    ensures r.currentQuestionIndex ==
              if r.quizFinished then s.currentQuestionIndex else s.currentQuestionIndex + 1
    ensures Inv(s) ==> Inv(r) && Settled(r)
  {
    var counted := s.(correctAnswers := if isCorrect then s.correctAnswers + 1 else s.correctAnswers,
                      answeredQuestions := s.answeredQuestions + 1,
                      timer := QuestionSeconds);
    if s.currentQuestionIndex < |s.questions| - 1 then
      counted.(currentQuestionIndex := s.currentQuestionIndex + 1)
    else
      counted.(quizFinished := true)
  }

  /** handleRetry on the component state: back to the start screen, questions kept. */
  function Retry(s: Session): (r: Session)
    ensures r == Initial().(questions := s.questions)
    ensures Inv(r) && Settled(r)
  {
    Session(s.questions, 0, 0, QuestionSeconds, false, false, 0)
  }

  /** The check at the top of the timer effect: a running quiz whose timer shows 0 is finished. */
  function ExpireIfTimeUp(s: Session): (r: Session)
    ensures Settled(r)
    ensures r.quizFinished <==> s.quizFinished || (s.quizStarted && s.timer == 0)
    ensures r.(quizFinished := s.quizFinished) == s
    ensures Inv(s) ==> Inv(r)
  {
    if s.quizStarted && !s.quizFinished && s.timer == 0 then s.(quizFinished := true) else s
  }

  /**
   * One second of the countdown: while the quiz runs, the interval callback
   * decrements the timer, and the effect that then re-runs finishes the quiz
   * when the timer reaches 0. Nothing else changes; a quiz that is not
   * running is left alone.
   */
  function Tick(s: Session): (r: Session)
    ensures !(s.quizStarted && !s.quizFinished) ==> r == s
    ensures s.quizStarted && !s.quizFinished ==>
              r == s.(timer := s.timer - 1, quizFinished := s.timer == 1)
    ensures Inv(s) && Settled(s) ==> Inv(r) && Settled(r)
  {
    if s.quizStarted && !s.quizFinished then ExpireIfTimeUp(s.(timer := s.timer - 1)) else s
  }

  /**
   * A response to a question request, applied only while the list is still
   * empty, so that a running or restored quiz keeps its questions. A failed
   * request changes nothing.
   */
  function ApplyResponse(s: Session, outcome: FetchOutcome): (r: Session)
    ensures r.(questions := s.questions) == s
    ensures |s.questions| > 0 || outcome.FetchFailed? ==> r == s
    ensures |s.questions| == 0 && outcome.Fetched? ==> r.questions == outcome.batch
    ensures Inv(s) ==> Inv(r)
    ensures Settled(s) ==> Settled(r)
  {
    match outcome
    case FetchFailed => s
    case Fetched(batch) => if |s.questions| == 0 then s.(questions := batch) else s
  }

  /**
   * A response as Quiz.jsx:73-75 applies it: whatever the list holds when
   * the response arrives is replaced by the batch.
   */
  function ApplyResponseAsWritten(s: Session, outcome: FetchOutcome): (r: Session)
    ensures r.(questions := s.questions) == s
    ensures outcome.Fetched? ==> r.questions == outcome.batch
    ensures outcome.FetchFailed? ==> r == s
  {
    match outcome
    case FetchFailed => s
    case Fetched(batch) => s.(questions := batch)
  }

  // ---------------------------------------------------------------------
  // The progress store: entries `quizProgress_<username>` of local storage.

  const ProgressPrefix: string := "quizProgress_"

  function ProgressKey(username: string): (k: string)
    ensures |k| == |ProgressPrefix| + |username| && k[|ProgressPrefix|..] == username
  {
    ProgressPrefix + username
  }

  /** Distinct users never share a progress entry. */
  lemma ProgressKeyInjective(a: string, b: string)
    requires ProgressKey(a) == ProgressKey(b)
    ensures a == b
  {
  }

  /** The save effect: a started session of a named user overwrites its entry. */
  function SaveProgress(progress: map<string, Snapshot>, username: string, s: Session): (r: map<string, Snapshot>)
    ensures s.quizStarted && username != "" ==>
              ProgressKey(username) in r && r[ProgressKey(username)] == SnapshotOf(s)
    ensures forall k :: k != ProgressKey(username) ==>
              (k in r <==> k in progress) && (k in r ==> r[k] == progress[k])
    ensures !s.quizStarted || username == "" ==> r == progress
  {
    if s.quizStarted && username != "" then progress[ProgressKey(username) := SnapshotOf(s)] else progress
  }

  /** The restore effect: a named user's stored snapshot replaces the whole state. */
  function RestoreProgress(progress: map<string, Snapshot>, username: string, s: Session): (r: Session)
    ensures username == "" || ProgressKey(username) !in progress ==> r == s
    ensures username != "" && ProgressKey(username) in progress ==>
              r.quizStarted && SnapshotOf(r) == progress[ProgressKey(username)]
  {
    if username != "" && ProgressKey(username) in progress then
      Restored(progress[ProgressKey(username)])
    else
      s
  }

  /** Every entry of the progress store is a snapshot of a valid session. */
  predicate ProgressValid(progress: map<string, Snapshot>) {
    forall k :: k in progress ==> SnapshotValid(progress[k])
  }

  /** Saving a valid session keeps every stored snapshot valid. */
  lemma SavePreservesStore(progress: map<string, Snapshot>, username: string, s: Session)
    requires ProgressValid(progress) && Inv(s)
    ensures ProgressValid(SaveProgress(progress, username, s))
  {
  }

  /** Restoring from a valid store yields a valid session. */
  lemma RestorePreservesInv(progress: map<string, Snapshot>, username: string, s: Session)
    requires ProgressValid(progress) && Inv(s)
    ensures Inv(RestoreProgress(progress, username, s))
  {
  }

  /**
   * The round trip: whatever state the page is mounted with, restoring the
   * entry just saved for a named user gives back the saved session exactly,
   * and other users' entries are untouched.
   */
  lemma SaveThenRestore(progress: map<string, Snapshot>, username: string, s: Session, mounted: Session)
    requires s.quizStarted && username != ""
    ensures RestoreProgress(SaveProgress(progress, username, s), username, mounted) == s
  {
  }

  /** Without a current user nothing is written and nothing is read. */
  lemma AnonymousSessionIsNotPersisted(progress: map<string, Snapshot>, s: Session, mounted: Session)
    ensures SaveProgress(progress, "", s) == progress
    ensures RestoreProgress(progress, "", mounted) == mounted
  {
  }

  // ---------------------------------------------------------------------
  // Runs: what the page can deliver, one event at a time.

  datatype Event =
    | StartClicked
    | AnswerClicked(isCorrect: bool)
    | SecondElapsed
    | RetryClicked
    | QuestionsArrived(outcome: FetchOutcome)

  /**
   * One event. A button that is not on screen cannot be clicked: the start
   * button shows only before the quiz starts, answer buttons only while a
   * question is shown, the retry button only on the result screen.
   */
  function Step(s: Session, e: Event): (r: Session)
    ensures Inv(s) && Settled(s) ==> Inv(r) && Settled(r)
  {
    match e
    case StartClicked => if !s.quizStarted then Start(s) else s
    case AnswerClicked(c) => if CanAnswer(s) then Next(s, c) else s
    case SecondElapsed => Tick(s)
    case RetryClicked => if s.quizStarted && s.quizFinished then Retry(s) else s
    case QuestionsArrived(o) => ApplyResponse(s, o)
  }

  function Run(s: Session, events: seq<Event>): Session
    decreases |events|
  {
    if events == [] then s else Run(Step(s, events[0]), events[1..])
  }

  /**
   * Every run keeps the invariant, in particular
   * correctAnswers <= answeredQuestions <= |questions|.
   */
  lemma {:induction false} RunPreservesInv(s: Session, events: seq<Event>)
    requires Inv(s) && Settled(s)
    ensures Inv(Run(s, events)) && Settled(Run(s, events))
    ensures 0 <= Run(s, events).correctAnswers <= Run(s, events).answeredQuestions
              <= |Run(s, events).questions|
    decreases |events|
  {
    if events != [] {
      var t := Step(s, events[0]);
      assert Inv(t) && Settled(t);
      RunPreservesInv(t, events[1..]);
    }
  }

  function Answers(choices: seq<bool>): (es: seq<Event>)
    ensures |es| == |choices|
    ensures forall i :: 0 <= i < |choices| ==> es[i] == AnswerClicked(choices[i])
  {
    if choices == [] then [] else [AnswerClicked(choices[0])] + Answers(choices[1..])
  }

  function CountTrue(choices: seq<bool>): nat {
    if choices == [] then 0 else (if choices[0] then 1 else 0) + CountTrue(choices[1..])
  }

  /**
   * Answering every remaining question finishes the quiz with every
   * question counted as answered and one correct answer per `true`.
   */
  lemma {:induction false} AnswerEveryQuestion(s: Session, choices: seq<bool>)
    requires Inv(s) && CanAnswer(s)
    requires |choices| == |s.questions| - s.currentQuestionIndex
    ensures Run(s, Answers(choices)).quizFinished
    ensures Run(s, Answers(choices)).answeredQuestions == |s.questions|
    ensures Run(s, Answers(choices)).correctAnswers == s.correctAnswers + CountTrue(choices)
    ensures Run(s, Answers(choices)).questions == s.questions
    decreases |choices|
  {
    var es := Answers(choices);
    var t := Next(s, choices[0]);
    assert Run(s, es) == Run(t, es[1..]);
    assert es[1..] == Answers(choices[1..]);
    if |choices| == 1 {
      assert es[1..] == [];
    } else {
      AnswerEveryQuestion(t, choices[1..]);
    }
  }

  function Seconds(n: nat): seq<Event> {
    if n == 0 then [] else [SecondElapsed] + Seconds(n - 1)
  }

  /**
   * Letting the timer run out on a running quiz finishes the whole quiz:
   * the timer shows 0 and no counter, no index and no question changes.
   */
  lemma {:induction false} TimeRunsOut(s: Session)
    requires s.quizStarted && !s.quizFinished && s.timer > 0
    ensures Run(s, Seconds(s.timer)) == s.(timer := 0, quizFinished := true)
    decreases s.timer
  {
    var t := Tick(s);
    assert Run(s, Seconds(s.timer)) == Run(t, Seconds(s.timer - 1));
    if s.timer > 1 {
      TimeRunsOut(t);
    }
  }

  /**
   * Quiz.jsx:67-80 and 18-40 together: on mount a request goes out because
   * the initial list is empty, the restore effect then loads a saved quiz,
   * and the response arriving afterwards replaces the restored questions.
   * The response here is an empty `results` array, which the service sends
   * when it has too few questions; the restored index then lies beyond the
   * new list.
   */
  lemma MountResponseReplacesRestoredQuestions()
    ensures
      var saved := QuestionRecord("q1", "a", ["b"]);
      var progress := map[ProgressKey("ann") := Snapshot([saved, saved], 1, 1, 7, false, 1)];
      var restored := RestoreProgress(progress, "ann", Initial());
      var after := ApplyResponseAsWritten(restored, Fetched([]));
      && |Initial().questions| == 0
      && ProgressValid(progress)
      && Inv(restored)
      && after.questions != restored.questions
      && !Inv(after)
  {
  }

  /**
   * The corrected counterpart of MountResponseReplacesRestoredQuestions:
   * when a saved quiz with questions is restored, a response arriving
   * afterwards, whatever it holds, leaves the restored session as it was,
   * questions included, and valid.
   */
  lemma RestoredQuestionsSurviveResponse(
    progress: map<string, Snapshot>, username: string, mounted: Session, outcome: FetchOutcome)
    requires ProgressValid(progress) && Inv(mounted)
    requires username != "" && ProgressKey(username) in progress
    requires |progress[ProgressKey(username)].savedQuestions| > 0
    ensures
      var restored := RestoreProgress(progress, username, mounted);
      var after := ApplyResponse(restored, outcome);
      && after == restored
      && after.questions == progress[ProgressKey(username)].savedQuestions
      && Inv(after)
  {
    RestorePreservesInv(progress, username, mounted);
  }
}
