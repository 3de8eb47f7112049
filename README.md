# React quiz application: session, login and answer buttons in Dafny

The application is a browser quiz. A user logs in, or registers, with a username and a password kept in local storage. The user then answers multiple-choice trivia questions against a ten-second timer per question. Progress is saved per user, so a reload resumes the quiz. This project models the three parts of the application that hold logic:

- **The quiz session** (`src/components/Quiz.jsx`). This is a counter-and-flag machine over seven pieces of state: questions, current index, correct answers, timer, finished, started, answered. It has handlers for start, answer, retry and logout, and effects for restore, save, fetching questions and the countdown. Module `QuizSession` (`session.dfy`) states every transition as a function on a `Session` value and proves the lemmas about runs of transitions. Class `QuizPage.Quiz` (`quiz.dfy`) has the seven fields and one method per handler or effect. The contract of each method ties the new state to the matching `QuizSession` function.
- **Login and registration** (`src/components/Login.jsx`). Module `Password` (`password.dfy`) writes the password regular expression as its two lookaheads and its repeated class. It proves that this equals the plain character-class rule. Module `LoginPage` (`login.dfy`) holds the user lookup and the class `Login`, whose `HandleLogin` updates the users table and the current-user entry.
- **Answer presentation** (`src/components/Question.jsx`). Module `QuestionView` (`question.dfy`) builds the answer array, reorders it in place, and reports whether a clicked answer is correct.

Local storage is the class `BrowserStorage.Storage` (`storage.dfy`). It has three fields: the `users` table, the `currentUser` entry, and the progress entries keyed by `quizProgress_<username>`. Values are kept decoded, so JSON encoding is the identity. The Quiz and Login objects share one store.

Timer expiry follows the code. When the timer reaches 0 the whole quiz finishes (`quizFinished := true`). A timeout does not record a wrong answer and does not move to the next question.

`handleNext` itself has no guard. It is reachable only while a question is on screen (Quiz.jsx:134, 157, 173-174), so that condition is its precondition (`QuizSession.CanAnswer`). The same holds for `handleLogin`: the button is disabled while either field is empty (Login.jsx:99).

## Model

| member | source | states |
|---|---|---|
| `QuizSession.Initial` | src/components/Quiz.jsx:7-13 | The first render: not started, no questions, timer 10. It satisfies the session invariant and no running quiz shows 0 seconds. |
| `QuizSession.Start` | src/components/Quiz.jsx:96-98 | Sets `quizStarted` and changes nothing else. Keeps the session invariant. |
| `QuizSession.Next` | src/components/Quiz.jsx:116-126 | Adds 1 to `correctAnswers` exactly when `isCorrect`. Always adds 1 to `answeredQuestions` and resets the timer to 10. Moves to the next question, or at the last question leaves the index and finishes the quiz. Keeps the questions. Keeps the invariant, including `correctAnswers <= answeredQuestions <= questions.length`. |
| `QuizSession.Retry` | src/components/Quiz.jsx:100-108 | Gives the initial state with the questions kept: not started, not finished, index, correct and answered counts 0, timer 10. |
| `QuizSession.ExpireIfTimeUp` | src/components/Quiz.jsx:82-87 | A running quiz whose timer shows 0 becomes finished. Nothing else changes. Afterwards no running quiz shows 0 seconds. |
| `QuizSession.Tick` | src/components/Quiz.jsx:82-94 | While the quiz runs, the timer drops by 1 and the quiz finishes exactly when the timer reaches 0. No other field changes. A quiz that is not running is left unchanged. Keeps the invariant. |
| `QuizSession.ApplyResponse` | src/components/Quiz.jsx:67-80 | A fetched batch fills an empty question list in source order. A failed request, or a list that is already loaded, leaves the state unchanged. Only `questions` can change. Keeps the invariant. This is the corrected response handling (see ## Findings). |
| `QuizSession.ApplyResponseAsWritten` | src/components/Quiz.jsx:73-75 | The response handler as written: a fetched batch replaces the question list whatever it held, a failed request changes nothing, and no field other than `questions` changes. |
| `QuizSession.ProgressKeyInjective` | src/components/Quiz.jsx:52-55 | Two users with different names never share a `quizProgress_<username>` key. |
| `QuizSession.SaveProgress` | src/components/Quiz.jsx:42-65 | A started session of a named user is written under that user's key. Every other key is untouched. Nothing at all is written before the start or for an empty username. |
| `QuizSession.RestoreProgress` | src/components/Quiz.jsx:18-40 | When a named user has an entry, the whole state comes from it and `quizStarted` is set. Otherwise, including for an empty username, the state is unchanged. |
| `QuizSession.SavePreservesStore` | src/components/Quiz.jsx:42-56 | Saving a valid session keeps every stored snapshot valid. |
| `QuizSession.RestorePreservesInv` | src/components/Quiz.jsx:18-40 | Restoring from a store of valid snapshots produces a valid session. |
| `QuizSession.SaveThenRestore` | src/components/Quiz.jsx:18-56 | Save then restore gives back the saved session exactly, whatever state the page was mounted with: questions, index, correct count, timer, finished flag, answered count, and started. |
| `QuizSession.AnonymousSessionIsNotPersisted` | src/components/Quiz.jsx:14-56 | With an empty username, saving writes nothing and restoring reads nothing. |
| `QuizSession.Step` | src/components/Quiz.jsx:82-126 | One event as the page lets it happen: start when not started, an answer only while a question is shown, a second of the timer, retry only on the result screen, or a question response. Each keeps the invariant and the rule that no running quiz shows 0 seconds. |
| `QuizSession.RunPreservesInv` | src/components/Quiz.jsx:82-126 | Any run of start, answer, timer, retry and question-arrival events, taken one by one through `QuizSession.Run`, keeps the invariant. In particular `correctAnswers <= answeredQuestions <= questions.length`. Question arrival uses the corrected response handling (see ## Findings). |
| `QuizSession.AnswerEveryQuestion` | src/components/Quiz.jsx:116-126 | Answering every remaining question finishes the quiz with the same questions. `answeredQuestions` is then the number of questions, and the correct count rises by the number of correct answers. |
| `QuizSession.TimeRunsOut` | src/components/Quiz.jsx:82-94 | If no answer comes, a running quiz finishes after exactly `timer` seconds with the timer at 0. No counter, index or question changes. |
| `QuizSession.MountResponseReplacesRestoredQuestions` | src/components/Quiz.jsx:67-80 | Counterexample for the code as written. The request sent on mount, when the list is still empty, is answered after the restore. The answer then replaces the restored questions and breaks the invariant. |
| `QuizSession.RestoredQuestionsSurviveResponse` | src/components/Quiz.jsx:18-80 | With the corrected handling, when a saved quiz with questions is restored, a later response of any kind leaves the restored session as it was: the saved questions stay, and the session is valid. |
| `Password.RepeatToEndMeaning` | src/components/Login.jsx:28 | `[class]{n,}$` matches exactly when the string has at least n characters and all of them are in the class. |
| `Password.DotStarThenMeaning` | src/components/Login.jsx:28 | For a string without line terminators, the lookahead `.*[class]` succeeds exactly when some character is in the class. |
| `Password.ValidatePasswordMeetsRule` | src/components/Login.jsx:27-30 | `validatePassword`, with the regular expression accepts exactly the passwords that have at least 8 characters, at least one ASCII digit and at least one of `!@#$%^&*`, and whose every character is in `A-Z`, `a-z`, `0-9` or `!@#$%^&*`. Both directions are proved. |
| `Password.PasswordExamples` | src/components/Login.jsx:28 | "ab1!" is refused and "abcdef1!" is accepted. |
| `LoginPage.FindUser` | src/components/Login.jsx:44 | Either the position of the first user with the name, with no earlier user bearing it, or none when no user has the name. |
| `LoginPage.RegisterKeepsNamesDistinct` | src/components/Login.jsx:56-59 | Appending a user whose name was not found keeps the usernames pairwise distinct. |
| `LoginPage.FoundUserIsUnique` | src/components/Login.jsx:44-48 | In a table of distinct names, the user found is the only user with that name. |
| `LoginPage.Login.constructor` | src/components/Login.jsx:6-8 | The page opens with no error message, over the shared store. |
| `LoginPage.Login.HandleLogin` | src/components/Login.jsx:33-63 | Five outcomes. (1) An invalid password sets the rule message and leaves the users and `currentUser` unchanged. (2) An existing user with the right password becomes `currentUser`, and the users are unchanged. (3) An existing user with a wrong password gets "Incorrect password" and nothing else changes. (4) An unknown user is appended at the end and becomes `currentUser`, and earlier entries are unchanged. (5) In every case the usernames stay distinct and the progress entries are untouched. |
| `QuestionView.ExchangesPermute` | src/components/Question.jsx:11 | Reordering by exchanges keeps the length and the multiset of answers. |
| `QuestionView.SortInPlace` | src/components/Question.jsx:11 | The array afterwards is its old contents reordered by the given exchanges. |
| `QuestionView.ShuffledAnswers` | src/components/Question.jsx:9-12 | The displayed list has the multiset of `incorrect_answers` plus `correct_answer`, length `incorrect_answers.length + 1`, and contains `correct_answer`. |
| `QuestionView.CorrectButtonsCountsCorrectAnswer` | src/components/Question.jsx:15-17 | With `handleAnswer` comparing the clicked answer to `correct_answer`, the number of buttons whose click reports true equals the number of times `correct_answer` is displayed. |
| `QuestionView.CorrectButtonCount` | src/components/Question.jsx:15-29 | In any order, the buttons that report true are one more than the copies of `correct_answer` among the incorrect answers, so at least one. |
| `QuestionView.SomeButtonIsCorrect` | src/components/Question.jsx:15-29 | In any order, some displayed button reports a correct answer. |
| `QuestionView.QuestionPanel.constructor` | src/components/Question.jsx:6-12 | On mount the buttons show a reordering of the first record's answers. |
| `QuestionView.QuestionPanel.Render` | src/components/Question.jsx:9-12 | The order is recomputed only when `data` changes. The same data keeps the same order. The buttons always show a reordering of the current record's answers. |
| `QuizPage.Quiz.constructor` | src/components/Quiz.jsx:7-14 | The first render: initial state, no requests in flight, and the username read from `currentUser`. |
| `QuizPage.Quiz.RestoreEffect` | src/components/Quiz.jsx:18-40 | The fields become `RestoreProgress` of the store. Validity is kept. |
| `QuizPage.Quiz.SaveEffect` | src/components/Quiz.jsx:42-65 | The progress entries become `SaveProgress` of the current state. The users table and `currentUser` are untouched. |
| `QuizPage.Quiz.FetchEffect` | src/components/Quiz.jsx:67-72 | A request is sent exactly when the list is empty. The session state is unchanged and validity is kept. |
| `QuizPage.Quiz.FetchSettled` | src/components/Quiz.jsx:73-79 | When a request settles, the state becomes `ApplyResponse` of the outcome, with one fewer request in flight. This is the corrected response handling (see ## Findings). |
| `QuizPage.Quiz.TimerEffect` | src/components/Quiz.jsx:82-88 | The state becomes `ExpireIfTimeUp` of the old state. |
| `QuizPage.Quiz.Tick` | src/components/Quiz.jsx:89-91 | The state becomes `Tick` of the old state. Only `timer` and `quizFinished` may change. |
| `QuizPage.Quiz.HandleStart` | src/components/Quiz.jsx:96-98 | The state becomes `Start` of the old state. Only `quizStarted` may change. |
| `QuizPage.Quiz.HandleNext` | src/components/Quiz.jsx:116-126 | Requires that a question is shown. The state becomes `Next(old, isCorrect)`, and validity is kept. |
| `QuizPage.Quiz.HandleRetry` | src/components/Quiz.jsx:100-108 | The state becomes `Retry` of the old state. The user's progress entry is removed and nothing else in the store changes. |
| `QuizPage.Quiz.HandleLogout` | src/components/Quiz.jsx:110-114 | Removes `currentUser` and this user's progress entry. The users table, every other entry and the page state are unchanged. |
| `QuizPage.ReloadResumesQuiz` | src/components/Quiz.jsx:18-65 | A scenario for user "ann": mount, load a batch, start, answer the first question correctly, and save. A page mounted afterwards restores exactly the same state: the batch, index 1, one correct answer. |
| `QuizPage.LoginThenMountQuiz` | src/components/Login.jsx:33-63 | Login followed by the quiz page. When the password meets the rule and either the name is new or the password matches, the page runs for that user. Otherwise it runs for whoever was current before. The page is valid and shares the store. |
| `QuizPage.LogoutThenMountQuiz` | src/components/Quiz.jsx:110-114 | Logout followed by a new quiz page. The new page has no user, starts from the initial state, and its restore and save effects leave the store alone. `currentUser` is absent, the users table is kept, and of the progress entries only the old user's is gone. |

## Findings

| source | as written | input that shows it | evidently intended | confidence | as-written member | corrected member |
|---|---|---|---|---|---|---|
| src/components/Quiz.jsx:67-80 | On mount the fetch effect sees the initial empty list and sends a request, in the same pass as the restore effect. The response later calls `setQuestions` unconditionally, so it replaces the questions just restored. | User "ann" has a saved snapshot with two questions, index 1 and one answered. The mount-time request answers with an empty `results` array, as the service does when it has too few questions. The restored questions are lost, and index 1 now lies beyond the empty list, so the page shows "Loading Questions..." until the timer ends the quiz. | Questions are fetched only while none are loaded, so a response must not replace a list that is already loaded. | not executed; high | `QuizSession.ApplyResponseAsWritten`, exhibited by `QuizSession.MountResponseReplacesRestoredQuestions` | `QuizSession.ApplyResponse`, proved by `QuizSession.RestoredQuestionsSurviveResponse` and `QuizSession.RunPreservesInv`, and used by `QuizPage.Quiz.FetchSettled` |

## Left out

- The score percentage (Quiz.jsx:128-130) is floating-point division followed by `toFixed(2)`, and it is NaN for an empty list. It and the rest of the result screen's text are not modelled.
- The HTTP request (amount, category, difficulty, URL) is not modelled. Its result is the abstract input `FetchOutcome`: a batch, or a failure that is only logged.
- JSON encoding and decoding are the identity here. A malformed stored entry, which would make `JSON.parse` throw in the source, is not modelled.
- Real time and React's scheduling are not modelled: intervals, batching, stale closures, and which renders trigger which effect. For example, the save effect does not list `questions` among its dependencies. Each method is one run of one handler or effect, and the caller decides when it runs.
- `QuizPage.Quiz.FetchSettled` applies a fetched batch only while the question list is empty, as the corrected `QuizSession.ApplyResponse` does. Quiz.jsx:74 replaces the list unconditionally; that behaviour is `QuizSession.ApplyResponseAsWritten` (see ## Findings). `QuizSession.RunPreservesInv` is likewise stated for the corrected handling.
- `QuizPage.Quiz.Tick` requires that the timer effect has run since the last change, so that a running quiz does not show 0 seconds. React runs that effect before the next interval can fire.
- `QuizPage.Quiz.constructor` reads the username once, when the page mounts. The source re-reads `currentUser` on every render, but nothing in the page changes that entry while the page stays mounted.
- `Math.random` and the engine's sort algorithm are not modelled. The reordering is an arbitrary sequence of in-range exchanges. That every permutation can be reached this way is not proved.
- `QuestionView.QuestionPanel.Render` compares `data` by value. React compares the dependency by object identity, so two equal records at consecutive positions would be reshuffled by React but not by the model.
- Markup is not modelled: question and answer text rendered as raw HTML, and all other JSX.
- Navigation (`navigate`), console logging of the user table (Login.jsx:14-24), and the password-visibility toggle (Login.jsx:66-68) are not modelled.
- `src/App.jsx` holds only router wiring and is not part of this model.
- Counters are unbounded integers. JavaScript numbers are exact at these sizes.
