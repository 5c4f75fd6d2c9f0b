/** The App component as the user drives it: each user action or interval
    firing is an event, applied only when the rendered control allows it. */
module App {

  import opened Types
  import opened TimeFormat
  import opened Session
  import opened Countdown

  datatype Event =
    | TypeName(name: string)
    | PressStart(picks: seq<nat>)
    | Second
    | PressLock
    | TypeAnswer(index: nat, text: string)

  /** The name field exists only in the start dialog, shown before the test starts. */
  predicate NameInputShown(s: State) {
    !s.isTestStarted
  }

  /** The start button is shown before the test starts and enabled for a non-empty name. */
  predicate StartEnabled(s: State) {
    !s.isTestStarted && s.userName != ""
  }

  /** The lock button is shown once the test starts and disabled once locked. */
  predicate LockEnabled(s: State) {
    s.isTestStarted && !s.isLocked
  }

  /** An answer field is shown per question once the test starts and disabled once the time is up. */
  predicate AnswerEnabled(s: State, index: nat) {
    s.isTestStarted && index < |s.questions| && !s.isTimeUp
  }

  /** The random source yields an index in range for every game. */
  predicate WellFormed(bank: seq<Game>, e: Event) {
    e.PressStart? ==> ValidPicks(bank, e.picks)
  }

  /** The effect of one event; an event on a control that is hidden or disabled does nothing. */
  function Step(bank: seq<Game>, s: State, e: Event): (r: State)
    requires WellFormed(bank, e)
    ensures e.PressStart? ==> (r.isTestStarted <==> s.isTestStarted || s.userName != "")
    ensures e.PressLock? ==> (r.isLocked <==> s.isLocked || s.isTestStarted)
    ensures e.PressLock? && LockEnabled(s) ==> r.isTimeUp && !r.isTimerRunning && r.time == s.time
    ensures e.TypeAnswer? && s.isTimeUp ==> r == s
    ensures e.TypeName? && s.isTestStarted ==> r == s
    ensures r.questions != s.questions ==>
              e.TypeAnswer? || (e.PressStart? && !s.isTestStarted)
  {
    match e
    case TypeName(name) => if NameInputShown(s) then SetUserName(s, name) else s
    case PressStart(picks) => if StartEnabled(s) then Start(s, bank, picks) else s
    case Second => Tick(s)
    case PressLock => if LockEnabled(s) then Lock(s) else s
    case TypeAnswer(i, text) => if AnswerEnabled(s, i) then SetAnswer(s, i, text) else s
  }

  predicate AllWellFormed(bank: seq<Game>, es: seq<Event>) {
    forall k :: 0 <= k < |es| ==> WellFormed(bank, es[k])
  }

  /** The state after a sequence of events. */
  function Run(bank: seq<Game>, s: State, es: seq<Event>): State
    requires AllWellFormed(bank, es)
    decreases |es|
  {
    if |es| == 0 then s else Run(bank, Step(bank, s, es[0]), es[1..])
  }

  /** The questions of a started session are one per game of the bank, in order. */
  predicate DrawnFrom(bank: seq<Game>, qs: seq<Question>) {
    |qs| == |bank| &&
    forall k :: 0 <= k < |qs| ==>
      qs[k].game == bank[k].name &&
      (qs[k].question.Some? <==> |bank[k].questions| > 0) &&
      (qs[k].question.Some? ==> qs[k].question.value in bank[k].questions)
  }

  /** What holds of every state the user can reach. */
  predicate Inv(bank: seq<Game>, s: State) {
    && s.time <= InitialTime
    && (s.isLocked ==> s.isTimeUp)
    && (s.isTimeUp ==> !s.isTimerRunning)
    && (s.isTimeUp && !s.isLocked ==> s.time == 0)
    && (s.isTestStarted ==> s.isTimerRunning || s.isTimeUp)
    && (s.isTestStarted ==> s.userName != "" && DrawnFrom(bank, s.questions))
    && (!s.isTestStarted ==>
          s.questions == [] && s.time == InitialTime &&
          !s.isTimeUp && !s.isLocked && !s.isTimerRunning)
  }

  lemma InitInv(bank: seq<Game>)
    ensures Inv(bank, Init())
    ensures Results(Init()) == None
    ensures Tick(Init()) == Init()
  {
  }

  lemma StepInv(bank: seq<Game>, s: State, e: Event)
    requires WellFormed(bank, e) && Inv(bank, s)
    ensures Inv(bank, Step(bank, s, e))
  {
  }

  lemma {:induction false} RunInv(bank: seq<Game>, s: State, es: seq<Event>)
    requires AllWellFormed(bank, es) && Inv(bank, s)
    ensures Inv(bank, Run(bank, s, es))
    decreases |es|
  {
    if |es| > 0 {
      StepInv(bank, s, es[0]);
      RunInv(bank, Step(bank, s, es[0]), es[1..]);
    }
  }

  /** Every reachable state keeps the invariant. */
  lemma ReachableInv(bank: seq<Game>, es: seq<Event>)
    requires AllWellFormed(bank, es)
    ensures Inv(bank, Run(bank, Init(), es))
  {
    InitInv(bank);
    RunInv(bank, Init(), es);
  }

  /** No event makes the time grow. */
  lemma StepTimeNonIncreasing(bank: seq<Game>, s: State, e: Event)
    requires WellFormed(bank, e)
    ensures Step(bank, s, e).time <= s.time
  {
  }

  /** Once the session is over, no event changes the time, the name, the
      questions or their answers, so the results record stays what it was. */
  lemma FinishedIsFrozen(bank: seq<Game>, s: State, e: Event)
    requires WellFormed(bank, e) && Inv(bank, s) && (s.isTimeUp || s.isLocked)
    ensures var r := Step(bank, s, e);
      r.time == s.time && r.questions == s.questions && r.userName == s.userName && r.isTimeUp
    ensures Results(Step(bank, s, e)) == Results(s)
  {
  }

  /** Pressing lock twice is pressing it once; afterwards it is disabled. */
  lemma PressLockTwice(bank: seq<Game>, s: State)
    ensures !LockEnabled(Step(bank, s, PressLock))
    ensures Step(bank, Step(bank, s, PressLock), PressLock) == Step(bank, s, PressLock)
  {
  }

  /** The start button works exactly for a non-empty name before the test starts. */
  lemma PressStartEffect(bank: seq<Game>, s: State, picks: seq<nat>)
    requires ValidPicks(bank, picks)
    ensures Step(bank, s, PressStart(picks)).isTestStarted <==> s.isTestStarted || s.userName != ""
    ensures s.isTestStarted ==> Step(bank, s, PressStart(picks)) == s
  {
  }

  /** A session started from the initial state with name "Alice" and one game
      of one question: one question, timer running, 1020 seconds left; after
      1020 firings the time reads 0 but is not yet up, and the 1021st firing
      expires it. */
  lemma AliceScenario()
    ensures var bank := [Game("g", ["q"])];
      var s := Run(bank, Init(), [TypeName("Alice"), PressStart([0])]);
      && s.questions == [Question("g", Some("q"), Some(""))]
      && s.isTimerRunning && s.time == 1020
      && Ticks(s, 1020).time == 0 && !Ticks(s, 1020).isTimeUp
      && Ticks(s, 1021).isTimeUp && !Ticks(s, 1021).isTimerRunning
      && Results(Ticks(s, 1021)).Some?
  {
    var bank := [Game("g", ["q"])];
    var es := [TypeName("Alice"), PressStart([0])];
    assert es[1..][1..] == [];
    var s := Run(bank, Init(), es);
    assert s.questions == [Question("g", Some("q"), Some(""))];
    ExpiredExactlyAfter(s, 1020);
    ExpiredExactlyAfter(s, 1021);
  }

  /** Locking at 500 seconds left: the time is up at once, the timer stops,
      500 seconds stay on the clock, and the results show "8:20". */
  lemma LockAt500Scenario(s: State)
    requires s.isTestStarted && s.isTimerRunning && s.time == 500 && !s.isLocked
    ensures var r := Lock(s);
      r.isTimeUp && !r.isTimerRunning && r.time == 500 &&
      Results(r).Some? && Results(r).value.remainingTime == "8:20"
    ensures forall n: nat :: Ticks(Lock(s), n) == Lock(s)
  {
    assert Decimal(8) == "8";
    assert Decimal(20) == "20";
    forall n: nat ensures Ticks(Lock(s), n) == Lock(s) {
      FrozenAfterLock(s, n);
    }
  }
}
