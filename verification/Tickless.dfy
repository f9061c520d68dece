/** Tick accounting across tickless sleeps: microseconds that do not make up a tick are carried over. */
module Tickless {
  import opened Wrappers

  const SECOND := 1_000_000

  /** A tick rate the division by it makes sense for. */
  predicate Rate(tps: nat) {
    0 < tps <= SECOND
  }

  function UsPerTick(tps: nat): (u: nat)
    requires Rate(tps)
    ensures u > 0
  {
    DivPositive(SECOND, tps);
    SECOND / tps
  }

  lemma DivPositive(n: nat, d: nat)
    requires 0 < d <= n
    ensures n / d > 0
  {
  }

  /** tickless_one_shot_stop after a sleep of `passed` microseconds: ticks to announce, new remainder. */
  function Stop(tps: nat, remain: nat, passed: nat): (nat, nat)
    requires Rate(tps)
  {
    var u := UsPerTick(tps);
    var ticks := passed * tps / SECOND;
    var sum := remain + passed % u;
    if sum >= u then (ticks + 1, sum - u) else (ticks, sum)
  }

  // ---------------------------------------------------------------- one sleep

  lemma MulDiv(p: nat, u: nat, tps: nat)
    requires 0 < u && 0 < tps
    ensures p * tps / (u * tps) == p / u
  {
    var q, r := p / u, p % u;
    assert p * tps == q * (u * tps) + r * tps by {
      assert p == q * u + r;
      assert (q * u + r) * tps == q * (u * tps) + r * tps;
    }
    assert u * tps > 0;
    assert 0 <= r * tps < u * tps;
    Quotient(p * tps, u * tps, q, r * tps);
  }

  lemma {:induction false} NextMultiple(a: nat, b: nat, d: nat)
    requires a < b
    ensures a * d + d <= b * d
    decreases b
  {
    assert b * d == (b - 1) * d + d;
    if a < b - 1 {
      NextMultiple(a, b - 1, d);
    }
  }

  lemma Quotient(n: nat, d: nat, q: nat, r: nat)
    requires n == q * d + r && r < d
    ensures n / d == q
  {
    var q', r' := n / d, n % d;
    assert n == q' * d + r' && r' < d;
    if q' < q {
      NextMultiple(q', q, d);
    } else if q < q' {
      NextMultiple(q, q', d);
    }
  }

  lemma RateDivides(tps: nat)
    requires Rate(tps) && SECOND % tps == 0
    ensures UsPerTick(tps) * tps == SECOND
  {
    assert SECOND == tps * (SECOND / tps) + SECOND % tps;
  }

  /** A sleep is split into ticks and remainder without loss. */
  lemma StopConserves(tps: nat, remain: nat, passed: nat)
    requires Rate(tps) && SECOND % tps == 0 && remain < UsPerTick(tps)
    ensures var (ticks, remain') := Stop(tps, remain, passed);
      ticks * UsPerTick(tps) + remain' == remain + passed && remain' < UsPerTick(tps)
  {
    var u := UsPerTick(tps);
    RateDivides(tps);
    MulDiv(passed, u, tps);
    assert passed == passed / u * u + passed % u;
    var ticks := passed / u;
    assert (ticks + 1) * u == ticks * u + u;
  }

  // ---------------------------------------------------------------- whole runs

  datatype State = State(remain: nat, announced: nat, slept: nat)

  /** One wake-up; a timer that cannot be read announces nothing. */
  function Wake(tps: nat, s: State, passed: Option<nat>): State
    requires Rate(tps)
  {
    match passed
    case None => s
    case Some(p) =>
      var (ticks, remain) := Stop(tps, s.remain, p);
      State(remain, s.announced + ticks, s.slept + p)
  }

  function Run(tps: nat, s: State, sleeps: seq<Option<nat>>): State
    requires Rate(tps)
    decreases |sleeps|
  {
    if sleeps == [] then s else Run(tps, Wake(tps, s, sleeps[0]), sleeps[1..])
  }

  predicate Conserved(tps: nat, s: State)
    requires Rate(tps)
  {
    s.announced * UsPerTick(tps) + s.remain == s.slept && s.remain < UsPerTick(tps)
  }

  lemma WakeConserves(tps: nat, s: State, passed: Option<nat>)
    requires Rate(tps) && SECOND % tps == 0 && Conserved(tps, s)
    ensures Conserved(tps, Wake(tps, s, passed))
  {
    hide Stop, UsPerTick;
    if passed.Some? {
      StopConserves(tps, s.remain, passed.value);
      var (ticks, remain) := Stop(tps, s.remain, passed.value);
      assert (s.announced + ticks) * UsPerTick(tps) == s.announced * UsPerTick(tps) + ticks * UsPerTick(tps);
    }
  }

  lemma {:induction false} RunConserves(tps: nat, s: State, sleeps: seq<Option<nat>>)
    requires Rate(tps) && SECOND % tps == 0 && Conserved(tps, s)
    ensures Conserved(tps, Run(tps, s, sleeps))
    decreases |sleeps|
  {
    hide Wake, Conserved;
    if sleeps != [] {
      WakeConserves(tps, s, sleeps[0]);
      RunConserves(tps, Wake(tps, s, sleeps[0]), sleeps[1..]);
    }
  }

  /** At a rate that does not divide a second, a sleep of one tick's length is lost. */
  lemma TickLost(tps: nat)
    requires Rate(tps) && SECOND % tps != 0
    ensures Stop(tps, 0, UsPerTick(tps)) == (0, 0)
  {
    var u := UsPerTick(tps);
    assert SECOND == tps * u + SECOND % tps;
    assert u * tps < SECOND;
    assert u * tps / SECOND == 0;
    Quotient(u, u, 1, 0);
  }

  /** Over every sequence of sleeps ticks and remainder add up to the time slept, exactly when the tick rate
      divides a second. */
  lemma ConservesExactly(tps: nat)
    requires Rate(tps)
    ensures (forall sleeps :: Conserved(tps, Run(tps, State(0, 0, 0), sleeps))) <==> SECOND % tps == 0
  {
    hide Stop, UsPerTick;
    if SECOND % tps == 0 {
      forall sleeps ensures Conserved(tps, Run(tps, State(0, 0, 0), sleeps)) {
        RunConserves(tps, State(0, 0, 0), sleeps);
      }
    } else {
      TickLost(tps);
      var sleeps := [Some(UsPerTick(tps))];
      assert sleeps[1..] == [];
      assert Run(tps, State(0, 0, 0), sleeps) == Wake(tps, State(0, 0, 0), sleeps[0]);
      assert !Conserved(tps, Run(tps, State(0, 0, 0), sleeps));
    }
  }

  /** What has been announced never lags the time slept by a whole tick, and never runs ahead of it. */
  lemma DriftBelowOneTick(tps: nat, sleeps: seq<Option<nat>>)
    requires Rate(tps) && SECOND % tps == 0
    ensures var s := Run(tps, State(0, 0, 0), sleeps);
      s.announced * UsPerTick(tps) <= s.slept < (s.announced + 1) * UsPerTick(tps)
  {
    hide Run, UsPerTick;
    RunConserves(tps, State(0, 0, 0), sleeps);
    var s, u := Run(tps, State(0, 0, 0), sleeps), UsPerTick(tps);
    assert (s.announced + 1) * u == s.announced * u + u;
  }

  // ---------------------------------------------------------------- the power manager

  class Cpu {
    const tps: nat
    var usRemain: nat
    var isCurrentTickless: bool
    /** Ticks announced to the kernel and microseconds slept since boot. */
    ghost var announced: nat
    ghost var slept: nat

    ghost function Account(): State
      reads this
    {
      State(usRemain, announced, slept)
    }

    constructor (tps: nat)
      ensures this.tps == tps && Account() == State(0, 0, 0) && !isCurrentTickless
    {
      this.tps := tps;
      usRemain := 0;
      isCurrentTickless := false;
      announced := 0;
      slept := 0;
    }

    /** tickless_one_shot_stop; `passed` is what the timer reports, if it can be read. */
    method OneShotStop(passed: Option<nat>) returns (ticks: nat)
      requires Rate(tps)
      modifies `usRemain
      ensures passed == None ==> ticks == 0 && usRemain == old(usRemain)
      ensures passed.Some? ==> (ticks, usRemain) == Stop(tps, old(usRemain), passed.value)
    {
      var usPerTick := UsPerTick(tps);
      if passed == None {
        return 0;
      }
      ticks := passed.value * tps / SECOND;
      usRemain := usRemain + passed.value % usPerTick;
      if usRemain >= usPerTick {
        ticks := ticks + 1;
        usRemain := usRemain - usPerTick;
      }
    }

    /** tickless_enter: the timer is started for a sleep that is not empty, the CPU sleeps, and the ticks that
        passed are announced when it wakes.  `started` says whether the timer could be started. */
    method Enter(sleepTime: nat, started: bool, passed: Option<nat>)
      requires Rate(tps)
      modifies this
      ensures !isCurrentTickless
      ensures Account() ==
        if old(isCurrentTickless) || (sleepTime > 0 && started) then Wake(tps, old(Account()), passed)
        else old(Account())
    {
      if sleepTime > 0 && !isCurrentTickless {
        if started {
          isCurrentTickless := true;
        }
      }
      if isCurrentTickless {
        var ticks := OneShotStop(passed);
        isCurrentTickless := false;
        Announce(ticks, passed);
      }
    }

    /** tickless_exit: an interrupt ends the sleep. */
    method Exit(passed: Option<nat>)
      requires Rate(tps)
      modifies this
      ensures !isCurrentTickless
      ensures Account() == if old(isCurrentTickless) then Wake(tps, old(Account()), passed) else old(Account())
    {
      if !isCurrentTickless {
        return;
      }
      var ticks := OneShotStop(passed);
      isCurrentTickless := false;
      Announce(ticks, passed);
    }

    /** tickless_announce_n, when there is something to announce. */
    ghost method Announce(ticks: nat, passed: Option<nat>)
      modifies `announced, `slept
      ensures announced == old(announced) + ticks
      ensures slept == old(slept) + (if passed.Some? then passed.value else 0)
    {
      announced := announced + ticks;
      slept := slept + (if passed.Some? then passed.value else 0);
    }
  }
}
