/** The countdown over many firings of the one-second interval: each firing is
    one `Tick`, so a run of the interval is an iterate of `Tick`. */
module Countdown {

  import opened Session

  /** The state after `n` firings of the interval. */
  function Ticks(s: State, n: nat): State
    decreases n
  {
    if n == 0 then s else Ticks(Tick(s), n - 1)
  }

  function Max0(x: int): nat {
    if x < 0 then 0 else x
  }

  /** A stopped timer has no interval: any number of firings changes nothing. */
  lemma {:induction false} TicksWhileStopped(s: State, n: nat)
    requires !s.isTimerRunning
    ensures Ticks(s, n) == s
    decreases n
  {
    if n > 0 {
      TicksWhileStopped(Tick(s), n - 1);
    }
  }

  /** While the time has not been used up, each firing takes one second off
      and nothing else changes. */
  lemma {:induction false} TicksCountDown(s: State, n: nat)
    requires s.isTimerRunning && n <= s.time
    ensures Ticks(s, n) == s.(time := s.time - n)
    decreases n
  {
    if n > 0 {
      TicksCountDown(Tick(s), n - 1);
    }
  }

  /** A running timer started at `T` seconds is stopped with the time up after
      exactly `T + 1` firings: the firing that finds zero is the one that
      expires the session. */
  lemma TicksExpire(s: State)
    requires s.isTimerRunning
    ensures Ticks(s, s.time + 1) == s.(time := 0, isTimeUp := true, isTimerRunning := false)
  {
    TicksCountDown(s, s.time);
    TicksSplit(s, s.time, 1);
  }

  lemma {:induction false} TicksSplit(s: State, m: nat, n: nat)
    ensures Ticks(s, m + n) == Ticks(Ticks(s, m), n)
    decreases m
  {
    if m > 0 {
      TicksSplit(Tick(s), m - 1, n);
    }
  }

  /** From a running, not yet expired timer at `T`: after `n` firings the time
      is `max(0, T - n)`, and the session is expired if and only if `n > T`. */
  lemma ExpiredExactlyAfter(s: State, n: nat)
    requires s.isTimerRunning && !s.isTimeUp
    ensures Ticks(s, n).time == Max0(s.time - n)
    ensures Ticks(s, n).isTimeUp <==> n >= s.time + 1
    ensures !Ticks(s, n).isTimerRunning <==> n >= s.time + 1
    ensures Ticks(s, n).questions == s.questions && Ticks(s, n).isLocked == s.isLocked
  {
    if n <= s.time {
      TicksCountDown(s, n);
    } else {
      TicksExpire(s);
      var e := Ticks(s, s.time + 1);
      TicksSplit(s, s.time + 1, n - (s.time + 1));
      TicksWhileStopped(e, n - (s.time + 1));
    }
  }

  /** The time never grows and never goes below zero, whatever the state. */
  lemma TimeNonIncreasing(s: State, m: nat, n: nat)
    requires m <= n
    ensures Ticks(s, n).time <= Ticks(s, m).time <= s.time
  {
    TicksSplit(s, m, n - m);
    TimeBound(s, m);
    TimeBound(Ticks(s, m), n - m);
  }

  lemma {:induction false} TimeBound(s: State, n: nat)
    ensures Ticks(s, n).time <= s.time
    decreases n
  {
    if n > 0 {
      TimeBound(Tick(s), n - 1);
    }
  }

  /** Once the timer is stopped, by expiry or by a lock, the time never changes. */
  lemma FrozenAfterLock(s: State, n: nat)
    ensures Ticks(Lock(s), n) == Lock(s)
  {
    TicksWhileStopped(Lock(s), n);
  }

  /** Lets the interval fire until it clears itself, counting the firings. */
  method RunCountdown(s: State) returns (firings: nat, final: State)
    requires s.isTimerRunning && !s.isTimeUp
    ensures firings == s.time + 1
    ensures final == Ticks(s, firings)
    ensures final.time == 0 && final.isTimeUp && !final.isTimerRunning
    ensures final.questions == s.questions && final.userName == s.userName
  {
    firings := 0;
    final := s;
    while final.isTimerRunning
      invariant firings <= s.time + 1
      invariant final == Ticks(s, firings)
      invariant final.isTimerRunning <==> firings <= s.time
      invariant final.isTimerRunning ==> final.time == s.time - firings
      invariant !final.isTimerRunning ==> final.time == 0 && final.isTimeUp
      invariant final.questions == s.questions && final.userName == s.userName
      decreases s.time + 1 - firings
    {
      TicksSplit(s, firings, 1);
      final := Tick(final);
      firings := firings + 1;
    }
  }
}
