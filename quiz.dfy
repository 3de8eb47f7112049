/**
 * Quiz.jsx as a stateful object: the seven `useState` fields, the handlers
 * the buttons call, and the effects React runs after a render. Each method
 * is one run of one handler or effect; its contract ties the new state to
 * the transition function of QuizSession that describes it.
 */
module QuizPage {
  import opened Wrappers
  import opened Trivia
  import opened QuizSession
  import opened BrowserStorage
  import opened Password
  import opened LoginPage

  class Quiz {
    var questions: seq<QuestionRecord>
    var currentQuestionIndex: int
    var correctAnswers: int
    var timer: int
    var quizFinished: bool
    var quizStarted: bool
    var answeredQuestions: int
    /** Question requests sent and not yet settled. */
    var requestsInFlight: nat
    /** The current user, read from local storage when the page mounts ("" if none). */
    const username: string
    const store: Storage

    function Current(): Session
      reads this
    {
      Session(questions, currentQuestionIndex, correctAnswers, timer,
              quizFinished, quizStarted, answeredQuestions)
    }

    ghost predicate Valid()
      reads this, store
    {
      Inv(Current()) && store.Valid()
    }

    /** The first render: initial state, username read from the "currentUser" entry. */
    constructor (store: Storage)
      requires store.Valid()
      ensures Valid()
      ensures Current() == Initial() && requestsInFlight == 0
      ensures this.store == store && username == store.CurrentUsername()
    {
      questions, currentQuestionIndex, correctAnswers, timer := [], 0, 0, QuestionSeconds;
      quizFinished, quizStarted, answeredQuestions := false, false, 0;
      requestsInFlight := 0;
      this.store := store;
      username := store.CurrentUsername();
    }

    /** The restore effect (it runs on mount): a saved snapshot replaces the whole state. */
    method RestoreEffect()
      requires Valid()
      modifies this
      ensures Valid()
      ensures Current() == RestoreProgress(store.progress, username, old(Current()))
      ensures requestsInFlight == old(requestsInFlight)
    {
      RestorePreservesInv(store.progress, username, Current());
      if username != "" && ProgressKey(username) in store.progress {
        var saved := store.progress[ProgressKey(username)];
        questions := saved.savedQuestions;
        currentQuestionIndex := saved.savedCurrentQuestionIndex;
        correctAnswers := saved.savedCorrectAnswers;
        timer := saved.savedTimer;
        quizFinished := saved.savedQuizFinished;
        answeredQuestions := saved.savedAnsweredQuestions;
        quizStarted := true;
      }
    }

    /** The save effect: a started quiz of a named user is written to its progress entry. */
    method SaveEffect()
      requires Valid()
      modifies store`progress
      ensures Valid()
      ensures store.progress == SaveProgress(old(store.progress), username, Current())
    {
      SavePreservesStore(store.progress, username, Current());
      if quizStarted && username != "" {
        store.progress := store.progress[ProgressKey(username) := SnapshotOf(Current())];
      }
    }

    /** The fetch effect: a request for questions is sent only while the list is empty. */
    method FetchEffect()
      requires Valid()
      modifies this`requestsInFlight
      ensures Valid()
      ensures Current() == old(Current())
      ensures requestsInFlight == old(requestsInFlight) + (if |questions| == 0 then 1 else 0)
    {
      if |questions| == 0 {
        requestsInFlight := requestsInFlight + 1;
      }
    }

    /**
     * A request settles: a batch fills a list that is still empty, a failure
     * is only logged. (Quiz.jsx:73-75 sets the list unconditionally; see
     * QuizSession.MountResponseReplacesRestoredQuestions.)
     */
    method FetchSettled(outcome: FetchOutcome)
      requires Valid() && requestsInFlight > 0
      modifies this
      ensures Valid()
      ensures Current() == ApplyResponse(old(Current()), outcome)
      ensures requestsInFlight == old(requestsInFlight) - 1
    {
      requestsInFlight := requestsInFlight - 1;
      if outcome.Fetched? && |questions| == 0 {
        questions := outcome.batch;
      }
    }

    /** The timer effect's check: a running quiz whose timer shows 0 is finished. */
    method TimerEffect()
      requires Valid()
      modifies this`quizFinished
      ensures Valid() && Settled(Current())
      ensures Current() == ExpireIfTimeUp(old(Current()))
    {
      if quizStarted && !quizFinished && timer == 0 {
        quizFinished := true;
      }
    }

    /** One second: the interval callback, then the timer effect's check. */
    method Tick()
      requires Valid() && Settled(Current())
      modifies this`timer, this`quizFinished
      ensures Valid() && Settled(Current())
      ensures Current() == QuizSession.Tick(old(Current()))
    {
      if quizStarted && !quizFinished {
        timer := timer - 1;
        if timer == 0 {
          quizFinished := true;
        }
      }
    }

    /** `handleStart`. */
    method HandleStart()
      requires Valid()
      modifies this`quizStarted
      ensures Valid()
      ensures Current() == Start(old(Current()))
    {
      quizStarted := true;
    }

    /** `handleNext(isCorrect)`, passed to the Question shown only while a question is on screen. */
    method HandleNext(isCorrect: bool)
      requires Valid() && CanAnswer(Current())
      modifies this
      ensures Valid() && Settled(Current())
      ensures Current() == Next(old(Current()), isCorrect)
      ensures requestsInFlight == old(requestsInFlight)
    {
      if isCorrect {
        correctAnswers := correctAnswers + 1;
      }
      answeredQuestions := answeredQuestions + 1;
      timer := QuestionSeconds;
      if currentQuestionIndex < |questions| - 1 {
        currentQuestionIndex := currentQuestionIndex + 1;
      } else {
        quizFinished := true;
      }
    }

    /** `handleRetry`: the progress entry is removed and the counters reset; questions stay. */
    method HandleRetry()
      requires Valid()
      modifies this, store`progress
      ensures Valid()
      ensures Current() == Retry(old(Current()))
      ensures store.progress == old(store.progress) - {ProgressKey(username)}
      ensures requestsInFlight == old(requestsInFlight)
    {
      store.progress := store.progress - {ProgressKey(username)};
      quizStarted := false;
      quizFinished := false;
      currentQuestionIndex := 0;
      correctAnswers := 0;
      answeredQuestions := 0;
      timer := QuestionSeconds;
    }

    /**
     * `handleLogout`: the "currentUser" entry and this user's progress entry
     * are removed; the users table, every other progress entry and the page
     * state are untouched.
     */
    method HandleLogout()
      requires Valid()
      modifies store`currentUser, store`progress
      ensures Valid()
      ensures store.currentUser == None
      ensures store.progress == old(store.progress) - {ProgressKey(username)}
      ensures store.users == old(store.users)
    {
      store.currentUser := None;
      store.progress := store.progress - {ProgressKey(username)};
    }
  }

  /**
   * A page reload in the middle of a quiz: what one mounted page saved, the
   * next mounted page restores, field for field.
   */
  method ReloadResumesQuiz(store: Storage, batch: seq<QuestionRecord>) returns (page: Quiz, reloaded: Quiz)
    requires store.Valid() && store.currentUser == Some("ann") && |batch| >= 2
    requires ProgressKey("ann") !in store.progress
    modifies store
    ensures page.currentQuestionIndex == 1 && page.correctAnswers == 1 && page.questions == batch
    ensures reloaded.Current() == page.Current()
  {
    page := new Quiz(store);
    page.RestoreEffect();
    page.FetchEffect();
    page.FetchSettled(Fetched(batch));
    page.HandleStart();
    page.SaveEffect();
    page.HandleNext(true);
    page.SaveEffect();

    reloaded := new Quiz(store);
    reloaded.RestoreEffect();
  }

  /**
   * Login.jsx then Quiz.jsx: after a successful login or a registration, the
   * quiz page mounted next runs for that user; after a refused attempt it
   * runs for whoever was current before.
   */
  method LoginThenMountQuiz(store: Storage, name: string, password: string) returns (page: Quiz)
    requires store.Valid() && name != "" && password != ""
    modifies store
    ensures page.Valid() && page.store == store
    ensures
      var found := FindUser(old(store.users), name);
      var admitted := ValidatePassword(password) &&
                      (found.None? || old(store.users)[found.value].password == password);
      && (admitted ==> page.username == name)
      && (!admitted ==> page.username == old(store.CurrentUsername()))
  {
    var login := new Login(store);
    login.HandleLogin(name, password);
    page := new Quiz(store);
  }

  /**
   * Quiz.jsx:110-114 then a new mount: after logging out, the next page has
   * no user, so its restore effect reads nothing and it starts from the
   * initial state, and its save effect writes nothing.
   */
  method LogoutThenMountQuiz(page: Quiz) returns (next: Quiz)
    requires page.Valid()
    modifies page.store
    ensures next.Valid() && next.store == page.store && next.username == ""
    ensures next.store.users == old(page.store.users) && next.store.currentUser == None
    ensures next.Current() == Initial()
    ensures next.store.progress == old(page.store.progress) - {ProgressKey(page.username)}
  {
    page.HandleLogout();
    next := new Quiz(page.store);
    next.RestoreEffect();
    next.SaveEffect();
  }
}
