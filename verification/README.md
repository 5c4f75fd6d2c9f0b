# Timed quiz session — a Dafny model

The quiz app is a single React component. It asks for the user's name and then
draws one random question per game from a question bank. It counts down 17
minutes, one second at a time. The user can freeze the session early with a
"lock" button, and once the time is up or the session is locked the component
derives a results record.

This project lifts that state machine out of the React hooks:

- `types.dfy` (module `Types`) holds the record shapes: a `Game` has a name and its question texts, and a `Question` has a game, a question and an optional answer.
- `time_format.dfy` (module `TimeFormat`) holds `formatTime` ("M:SS") and a parser that reads the display back.
- `session.dfy` (module `Session`) holds the whole component state as one immutable `State` value, with one pure function per transition: `Init`, `SetUserName`, `Start`, `Tick`, `Lock` and `SetAnswer`, plus the derived `Results` record.
- `countdown.dfy` (module `Countdown`) treats each firing of the one-second interval as one `Tick`. It proves facts about `Ticks(s, n)`, the state after `n` firings, and has a method that runs the interval until it clears itself.
- `app.dfy` (module `App`) models user events on the rendered controls. The start button is disabled for an empty name. The lock button is disabled once locked. The answer fields are disabled once the time is up, and the name field is shown only before the start. This module also proves an invariant of every reachable state.

Modelling choices:

- **Random index.** `Math.random` is replaced by a caller-supplied index per game. `RandomIndexFor` is exactly the range of `Math.floor(Math.random() * len)`: an index below `len`, or 0 when `len` is 0. `FloorOfRandomInRange` and `RandomIndexReachable` prove the two inclusions.
- **Empty game.** In the code, a game with no questions yields an `undefined` question text. This is why `Question.question` is an `Option`.
- **Answers.** An answer is `Some("")` after the start and `Some(text)` after an edit.
- **Start.** `handleStartTest` and the effect it triggers are one atomic `Start`. The effect depends only on `isTestStarted`, so it runs on the first start only. A repeated start changes nothing.
- **Tick.** A firing that finds the time above 0 takes one second off. A firing that finds 0 sets `isTimeUp` and stops the timer. So a timer started at `T` expires on firing `T + 1`, not on firing `T`.
- **Results.** The results record is a function of the state. It exists exactly when `isTimeUp || isLocked` holds.

Behaviour of the code that the model keeps:

- **Expiry.** A timer started at `T` expires on firing `T + 1`, so a 17-minute session needs 1021 firings (`AliceScenario`).
- **Frozen answers.** `handleAnswerChange` has no guard. Only the input's `disabled={isTimeUp}` freezes answers, so the rule sits on the event layer (`App.AnswerEnabled`), not in `SetAnswer`.
- **Repeated lock.** `handleLock` has no guard. The button is disabled once locked, and `Lock` is idempotent anyway (`LockIdempotentAndFrozen`).

## Model

| member | source | states |
|---|---|---|
| Types.ArrayAt | src/App.tsx:19 | reading a question text by index gives a text of the game's list exactly when the index is in range, and `undefined` otherwise |
| TimeFormat.FormatTime | src/App.tsx:59-63 | the display is digits, a colon in the third position from the end, and exactly two digits after it |
| TimeFormat.Pad2 | src/App.tsx:62 | the seconds field always has exactly two digits |
| TimeFormat.ParseFormatTime | src/App.tsx:59-63 | reading the display back gives minutes `m` and seconds `s` with `60*m + s = t` and `s < 60` |
| TimeFormat.FormatParseTime | src/App.tsx:59-63 | every well-formed "M:SS" display is the display of the time it parses to |
| TimeFormat.FormatTimeInjective | src/App.tsx:59-63 | two remaining times have the same display if and only if they are equal |
| TimeFormat.FormatTimeExamples | src/App.tsx:59-63 | 1020 seconds show as "17:00", 65 as "1:05", 0 as "0:00" |
| Session.Init | src/App.tsx:6-13 | the initial state has 1020 seconds, no questions, an empty name and every flag false |
| Session.SetUserName | src/App.tsx:157 | typing a name changes the name and nothing else |
| Session.FloorOfRandomInRange | src/App.tsx:18 | `Math.floor(r * len)` with `r` in [0, 1) is an index below `len`, or 0 for an empty list |
| Session.RandomIndexReachable | src/App.tsx:18 | conversely, every index below `len` (0 for an empty list) is `Math.floor(r * len)` for some `r` in [0, 1) |
| Session.Select | src/App.tsx:17-20 | one question per game in bank order, carrying the game's name, the drawn text and an empty answer |
| Session.SelectFromOwnGame | src/App.tsx:17-20 | each drawn question is a text of its own game, and it is missing exactly when that game has no questions |
| Session.SelectCoversEveryChoice | src/App.tsx:17-20 | every combination of one question per game can be drawn: any text of each non-empty game, and `undefined` for each empty one |
| Session.Start | src/App.tsx:15-24 | the first start draws the questions and starts the timer without touching the time, the name or the flags; once started, start is a no-op |
| Session.StartIdempotent | src/App.tsx:15-24 | a second start keeps the questions first drawn, whatever the random source yields |
| Session.Tick | src/App.tsx:31-41 | a firing above 0 takes one second off; a firing at 0 keeps 0, sets the time as up and stops the timer; a stopped timer does not fire |
| Session.Lock | src/App.tsx:130-133 | lock sets locked and time-up and stops the timer, leaving the time, the name and the questions unchanged |
| Session.LockIdempotentAndFrozen | src/App.tsx:130-133 | locking twice equals locking once, and a firing after a lock changes nothing |
| Session.SetAnswer | src/App.tsx:141-145 | an answer edit replaces only that question's answer; the length, the order, the other entries and that entry's game and text are unchanged |
| Session.SetAnswerLastWins | src/App.tsx:141-145 | of two edits of the same answer, the later one stays |
| Session.SetAnswerCommutes | src/App.tsx:141-145 | edits of different questions commute |
| Session.SetAnswerUnchanged | src/App.tsx:141-145 | writing back the current answer leaves the state unchanged |
| Session.Results | src/App.tsx:47-57 | a results record exists exactly when the time is up or the session is locked; it holds the name and the questions, and its time display parses back to the remaining time |
| Countdown.TicksWhileStopped | src/App.tsx:26-29 | with the timer stopped, any number of firings changes nothing |
| Countdown.TicksCountDown | src/App.tsx:32-34 | up to `T` firings from a running timer at `T` take one second off each and change nothing else |
| Countdown.TicksExpire | src/App.tsx:35-39 | after `T + 1` firings a timer started at `T` shows 0, is up and is stopped |
| Countdown.ExpiredExactlyAfter | src/App.tsx:31-41 | after `n` firings the time is `max(0, T - n)`, and the session is up and stopped if and only if `n >= T + 1` |
| Countdown.TimeNonIncreasing | src/App.tsx:32-39 | over more firings the time never grows and never goes below 0 |
| Countdown.FrozenAfterLock | src/App.tsx:44 | after a lock no number of firings changes the state |
| Countdown.RunCountdown | src/App.tsx:31-45 | the interval fires exactly `T + 1` times before it clears itself, ending at 0 with the time up and the questions and name intact |
| App.Step | src/App.tsx:150-186 | the start button starts the test exactly when the test is started or the name is non-empty; the lock button locks once the test is started; answer edits after the time is up and name edits after the start have no effect; only the start and answer edits change the questions |
| App.InitInv | src/App.tsx:6-13 | the initial state satisfies the reachability invariant, has no results record and does not count down |
| App.StepInv | src/App.tsx:15-45 | every event preserves the invariant: a lock implies time-up, time-up implies a stopped timer, time-up without a lock implies 0 seconds, and a started session has a non-empty name and one question per game |
| App.ReachableInv | src/App.tsx:6-186 | every state reachable from the initial state by user events and firings satisfies the invariant |
| App.StepTimeNonIncreasing | src/App.tsx:31-41 | no event makes the remaining time grow |
| App.FinishedIsFrozen | src/App.tsx:47-57 | once the session is over, no event changes the time, the name or the answers, so the results record stays the same |
| App.PressLockTwice | src/App.tsx:186 | after a press the lock button is disabled, and pressing it twice equals pressing it once |
| App.PressStartEffect | src/App.tsx:159 | the start button starts the test exactly for a non-empty name, and does nothing once the test has started |
| App.AliceScenario | src/App.tsx:6-41 | "Alice" with one game of one question gets one question and a running timer at 1020; after 1020 firings it shows 0 but is not up; after 1021 it is up and has a results record |
| App.LockAt500Scenario | src/App.tsx:130-133 | a lock at 500 seconds stops the timer with 500 seconds left, the results show "8:20", and no firing changes the state afterwards |

## Left out

- `setInterval`/`clearInterval`, the one-second cadence and React's effect scheduling: each firing of the interval is one `Tick`, and the state updater's inner `setIsTimeUp`/`setIsTimerRunning` calls form one atomic transition.
- `Math.random`: replaced by a caller-supplied index per game (`RandomIndexFor`).
- The `localStorage.setItem('testResults', …)` write: it is I/O. The results record itself is modelled as `Session.Results`, a function of the state rather than a stored field. The effect's dependency list leaves out `time`, but that cannot matter: a finished session's time never changes (`App.FinishedIsFrozen`).
- `saveResultsAsHTML`, called from `handleLock`: CSS and HTML templating, `Blob`, object URLs and the download link are presentation and browser I/O.
- The JSX rendering, apart from the enable rules of the name field, the start button, the lock button and the answer fields (`App`).
- The contents of `games.json`: the bank is an input sequence of `Game` values.
- `Session.SetAnswer` requires an in-range index. In JavaScript an out-of-range index throws a `TypeError`, but the only caller passes the index of a rendered question.
- `Session.SetAnswer` builds a new question record. The code copies the array shallowly (`[...questions]`) and changes the shared question object in place, so the previous array and a results record see the change too. No reachable state can observe the difference, because the answer inputs are disabled whenever a results record exists (`isTimeUp` holds, `App.Inv`).
- JavaScript numbers: the time is a `nat`. The code only ever subtracts 1 from a positive integer, so no fractional or negative value arises.
