/** The quiz session of the App component, lifted out of its React hooks: one
    immutable record holding every piece of component state, and one pure
    function per transition. */
module Session {

  import opened Types
  import opened TimeFormat

  /** Length of a quiz: 17 minutes, in seconds. */
  const InitialTime: nat := 17 * 60

  datatype State = State(
    questions: seq<Question>,
    time: nat,
    isTimeUp: bool,
    isLocked: bool,
    isTimerRunning: bool,
    userName: string,
    isTestStarted: bool)

  /** The record the component derives once the quiz is over. */
  datatype TestResults = TestResults(userName: string, remainingTime: string, answers: seq<Question>)

  /** The state the component is mounted with. */
  function Init(): (r: State)
    ensures r.time == 1020 && r.questions == [] && r.userName == ""
    ensures !r.isTimeUp && !r.isLocked && !r.isTimerRunning && !r.isTestStarted
  {
    State([], InitialTime, false, false, false, "", false)
  }

  /** Typing into the name field. */
  function SetUserName(s: State, name: string): (r: State)
    ensures r.userName == name
    ensures r.(userName := s.userName) == s
  {
    s.(userName := name)
  }

  /** The values `Math.floor(Math.random() * len)` can take: below `len`, or
      0 when `len` is 0. */
  predicate RandomIndexFor(len: nat, i: nat) {
    if len == 0 then i == 0 else i < len
  }

  /** `Math.floor(r * len)`. */
  function FloorOf(r: real, len: nat): int {
    (r * len as real).Floor
  }

  /** The random index drawn for a game is any floor of `r * len` with `r` in [0, 1). */
  lemma FloorOfRandomInRange(r: real, len: nat)
    requires 0.0 <= r < 1.0
    ensures FloorOf(r, len) >= 0
    ensures RandomIndexFor(len, FloorOf(r, len) as nat)
  {
    var x := r * len as real;
    if len > 0 {
      var n := len as real;
      assert n - x == (1.0 - r) * n;
      assert (1.0 - r) * n > 0.0;
    } else {
      assert x == 0.0;
    }
  }

  /** Conversely, every index `RandomIndexFor` admits is drawn for some `r` in [0, 1). */
  lemma RandomIndexReachable(len: nat, i: nat)
    requires RandomIndexFor(len, i)
    ensures exists r: real :: 0.0 <= r < 1.0 && FloorOf(r, len) == i
  {
    if len == 0 {
      assert FloorOf(0.0, len) == i;
    } else {
      var r := i as real / len as real;
      assert r * len as real == i as real;
      assert FloorOf(r, len) == i;
    }
  }

  /** One random index per game of the bank. */
  predicate ValidPicks(bank: seq<Game>, picks: seq<nat>) {
    |picks| == |bank| &&
    forall k :: 0 <= k < |bank| ==> RandomIndexFor(|bank[k].questions|, picks[k])
  }

  /** `gamesData.map(...)`: one question per game, in bank order, with an empty answer. */
  function Select(bank: seq<Game>, picks: seq<nat>): (qs: seq<Question>)
    requires ValidPicks(bank, picks)
    ensures |qs| == |bank|
    ensures forall k :: 0 <= k < |qs| ==>
      qs[k].game == bank[k].name && qs[k].answer == Some("") &&
      qs[k].question == ArrayAt(bank[k].questions, picks[k])
  {
    seq(|bank|, k requires 0 <= k < |bank| =>
      Question(bank[k].name, ArrayAt(bank[k].questions, picks[k]), Some("")))
  }

  /** Every selected question is a question of its own game; it is missing
      only for a game that has none. */
  lemma SelectFromOwnGame(bank: seq<Game>, picks: seq<nat>, k: nat)
    requires ValidPicks(bank, picks) && k < |bank|
    ensures Select(bank, picks)[k].game == bank[k].name
    ensures Select(bank, picks)[k].question.Some? <==> |bank[k].questions| > 0
    ensures Select(bank, picks)[k].question.Some? ==> Select(bank, picks)[k].question.value in bank[k].questions
  {
  }

  function IndexOf(s: seq<string>, x: string): (i: nat)
    requires x in s
    ensures i < |s| && s[i] == x
  {
    if s[0] == x then 0 else 1 + IndexOf(s[1..], x)
  }

  /** Every combination of one question per game can be drawn: any text of
      each non-empty game, and `undefined` for each empty one. */
  lemma SelectCoversEveryChoice(bank: seq<Game>, texts: seq<Option<string>>)
    requires |texts| == |bank|
    requires forall k :: 0 <= k < |bank| ==>
               (texts[k].None? <==> |bank[k].questions| == 0) &&
               (texts[k].Some? ==> texts[k].value in bank[k].questions)
    ensures exists picks ::
              ValidPicks(bank, picks) &&
              forall k :: 0 <= k < |bank| ==> Select(bank, picks)[k].question == texts[k]
  {
    var picks := seq(|bank|, k requires 0 <= k < |bank| =>
      if texts[k].Some? then IndexOf(bank[k].questions, texts[k].value) else 0);
    assert ValidPicks(bank, picks);
    assert forall k :: 0 <= k < |bank| ==> Select(bank, picks)[k].question == texts[k];
  }

  /** `handleStartTest` followed by the effect it triggers: the first start
      draws the questions and starts the timer; once started, starting again
      changes nothing (the effect only runs when `isTestStarted` changes). */
  function Start(s: State, bank: seq<Game>, picks: seq<nat>): (r: State)
    requires ValidPicks(bank, picks)
    ensures s.isTestStarted ==> r == s
    ensures !s.isTestStarted ==>
      r.isTestStarted && r.isTimerRunning && r.questions == Select(bank, picks) &&
      r.time == s.time && r.userName == s.userName &&
      r.isTimeUp == s.isTimeUp && r.isLocked == s.isLocked
  {
    if s.isTestStarted then s
    else s.(isTestStarted := true, questions := Select(bank, picks), isTimerRunning := true)
  }

  /** Start is idempotent: a repeated start keeps the questions first drawn,
      whatever the random source yields the second time. */
  lemma StartIdempotent(s: State, bank: seq<Game>, picks1: seq<nat>, picks2: seq<nat>)
    requires ValidPicks(bank, picks1) && ValidPicks(bank, picks2)
    ensures Start(Start(s, bank, picks1), bank, picks2) == Start(s, bank, picks1)
  {
  }

  /** One firing of the one-second interval. No interval exists while the
      timer is stopped. Above zero it counts down; a firing that finds zero
      marks the time as up and stops the timer, keeping the time at zero. */
  function Tick(s: State): (r: State)
    ensures r.time == (if s.isTimerRunning && s.time > 0 then s.time - 1 else s.time)
    ensures r.isTimerRunning <==> s.isTimerRunning && s.time > 0
    ensures r.isTimeUp <==> s.isTimeUp || (s.isTimerRunning && s.time == 0)
    ensures r.questions == s.questions && r.userName == s.userName
    ensures r.isLocked == s.isLocked && r.isTestStarted == s.isTestStarted
  {
    if !s.isTimerRunning then s
    else if s.time > 0 then s.(time := s.time - 1)
    else s.(isTimeUp := true, isTimerRunning := false)
  }

  /** `handleLock`: the manual freeze. */
  function Lock(s: State): (r: State)
    ensures r.isLocked && r.isTimeUp && !r.isTimerRunning
    ensures r.time == s.time && r.questions == s.questions && r.userName == s.userName
    ensures r.isTestStarted == s.isTestStarted
  {
    s.(isLocked := true, isTimeUp := true, isTimerRunning := false)
  }

  /** Locking twice is locking once, and a locked session no longer counts down. */
  lemma LockIdempotentAndFrozen(s: State)
    ensures Lock(Lock(s)) == Lock(s)
    ensures Tick(Lock(s)) == Lock(s)
  {
  }

  /** `handleAnswerChange`: replace the answer of one question. The index must
      name a question (JavaScript throws otherwise). */
  function SetAnswer(s: State, index: nat, answer: string): (r: State)
    requires index < |s.questions|
    ensures |r.questions| == |s.questions|
    ensures r.questions[index].answer == Some(answer)
    ensures r.questions[index].game == s.questions[index].game
    ensures r.questions[index].question == s.questions[index].question
    ensures forall j :: 0 <= j < |s.questions| && j != index ==> r.questions[j] == s.questions[j]
    ensures r.(questions := s.questions) == s
  {
    s.(questions := s.questions[index := s.questions[index].(answer := Some(answer))])
  }

  /** The last edit of an answer is the one that stays. */
  lemma SetAnswerLastWins(s: State, index: nat, a: string, b: string)
    requires index < |s.questions|
    ensures SetAnswer(SetAnswer(s, index, a), index, b) == SetAnswer(s, index, b)
  {
  }

  /** Edits of different questions do not interfere. */
  lemma SetAnswerCommutes(s: State, i: nat, j: nat, a: string, b: string)
    requires i < |s.questions| && j < |s.questions| && i != j
    ensures SetAnswer(SetAnswer(s, i, a), j, b) == SetAnswer(SetAnswer(s, j, b), i, a)
  {
  }

  /** Writing back the answer a question already has changes nothing. */
  lemma SetAnswerUnchanged(s: State, index: nat)
    requires index < |s.questions| && s.questions[index].answer.Some?
    ensures SetAnswer(s, index, s.questions[index].answer.value) == s
  {
  }

  /** The results record: present exactly once the time is up or the session
      is locked; it carries the name, the displayed remaining time and the
      questions with their answers. */
  function Results(s: State): (r: Option<TestResults>)
    ensures r.Some? <==> s.isTimeUp || s.isLocked
    ensures r.Some? ==> r.value.userName == s.userName && r.value.answers == s.questions
    ensures r.Some? ==> ParseTime(r.value.remainingTime) == Some((s.time / 60, s.time % 60))
  {
    if s.isTimeUp || s.isLocked then
      ParseFormatTime(s.time);
      Some(TestResults(s.userName, FormatTime(s.time), s.questions))
    else None
  }
}
