/** The two limits of the select/event protocol are exact: with 256 calls registered on one socket the
    uint8_t count reads zero and an event wakes nobody; with 2^32 list changes during one unlocked
    moment the 32-bit change counter reads as unmoved and a delivery follows a waiter that has left. */
module SalSelectLimits {
  import opened SalSelect
  import opened SalSelectProof

  ghost predicate Reachable(st: State, n: nat, m: nat) {
    exists acts {:trigger StaysBounded(acts, n, m)} :: StaysBounded(acts, n, m) && Exec(acts) == st
  }

  lemma Begins(n: nat, m: nat)
    ensures Reachable(INIT, n, m)
  {
    assert Exec([]) == INIT;
    assert StaysBounded([], n, m);
  }

  lemma Reaches(st: State, a: Action, n: nat, m: nat)
    requires Reachable(st, n, m) && Bounded(Step(st, a), n, m)
    ensures Reachable(Step(st, a), n, m)
  {
    var acts :| StaysBounded(acts, n, m) && Exec(acts) == st;
    var more := acts + [a];
    assert more[..|acts|] == acts;
    assert Exec(more) == Step(st, a);
    forall k | 0 <= k <= |more| ensures Bounded(Exec(more[..k]), n, m) {
      if k <= |acts| {
        assert more[..k] == acts[..k];
      } else {
        assert more[..k] == more;
      }
    }
    assert StaysBounded(more, n, m) && Exec(more) == Step(st, a);
  }

  lemma FewCalls(st: State, n: nat, m: nat)
    requires |st.calls.Keys| <= n
    requires forall w :: w in st.walks ==> st.gen - st.walks[w].gen <= m
    ensures Bounded(st, n, m)
  {
    forall s | s in st.socks ensures |Watchers(st, s)| <= n {
      SubsetSize(Watchers(st, s), st.calls.Keys);
    }
  }

  lemma SubsetSize<T>(a: set<T>, b: set<T>)
    requires a <= b
    ensures |a| <= |b|
  {
    assert b == a + (b - a);
  }

  // ---------------------------------------------------------------- 256 sleepers

  function OnZero(pc: Pc): Call {
    Call(0, 1, {0}, {}, {}, Forever, pc, 0, 1, false, 0, false)
  }

  function Sleepers(k: nat): (calls: map<Id, Call>)
    ensures k !in calls && |calls.Keys| == k
    ensures forall id :: id in calls ==> id < k && calls[id] == OnZero(Asleep)
  {
    if k == 0 then map[] else
    var fewer := Sleepers(k - 1);
    assert fewer[k - 1 := OnZero(Asleep)].Keys == fewer.Keys + {k - 1};
    fewer[k - 1 := OnZero(Asleep)]
  }

  function Stack(k: nat): seq<Id> {
    if k == 0 then [] else [k - 1] + Stack(k - 1)
  }

  /** k calls asleep on socket 0, the last one to come first in the list. */
  function Crowd(k: nat): State {
    State(map[0 := Sock(0, 0, 0, false, k % WAITING_MODULUS)], Sleepers(k), map[], Stack(k), k % CTR_MODULUS, k)
  }

  /** One more call, k, on its way through sal_select. */
  function Joining(k: nat, pc: Pc, linked: bool, counted: bool): State {
    State(map[0 := Sock(0, 0, 0, false, (if counted then k + 1 else k) % WAITING_MODULUS)],
          Sleepers(k)[k := OnZero(pc)], map[],
          if linked then [k] + Stack(k) else Stack(k),
          (if linked then k + 1 else k) % CTR_MODULUS,
          if linked then k + 1 else k)
  }

  lemma JoinReaches(k: nat, st: State, a: Action, pc: Pc, linked: bool, counted: bool, n: nat, m: nat)
    requires k < n && Reachable(st, n, m)
    requires Step(st, a) == Joining(k, pc, linked, counted)
    ensures Reachable(Joining(k, pc, linked, counted), n, m)
  {
    var st' := Joining(k, pc, linked, counted);
    assert st'.calls.Keys == Sleepers(k).Keys + {k};
    FewCalls(st', n, m);
    Reaches(st, a, n, m);
  }

  lemma Rewrite(k: nat, pc: Pc, pc': Pc)
    ensures Sleepers(k)[k := OnZero(pc)][k := OnZero(pc')] == Sleepers(k)[k := OnZero(pc')]
  {
  }

  lemma AdvanceAlone(k: nat, pc: Pc, linked: bool, counted: bool, pc': Pc)
    requires match pc
      case Scan1(i) => pc' == if i < 1 then Scan1(i + 1) else Link
      case Reg(i) => i >= 1 && pc' == Scan2(0)
      case Scan2(i) => pc' == if i < 1 then Scan2(i + 1) else Asleep
      case _ => false
    ensures Step(Joining(k, pc, linked, counted), Advance(k)) == Joining(k, pc', linked, counted)
  {
    hide Sleepers, Stack, Return, DeliverTo, WalkOn, Without;
    Rewrite(k, pc, pc');
  }

  /** Linking, on any state. */
  lemma LinkStep(st: State, id: Id)
    requires id in st.calls && st.calls[id].pc.Link?
    ensures var c := st.calls[id];
      Step(st, Advance(id)) ==
      State(st.socks, st.calls[id := c.(pc := Reg(c.lo), hi2 := c.hi)], st.walks, [id] + st.list,
            (st.ctr + 1) % CTR_MODULUS, st.gen + 1)
  {
  }

  /** Registering on a socket, on any state. */
  lemma RegStep(st: State, id: Id, i: int)
    requires id in st.calls && st.calls[id].pc == Reg(i) && i < st.calls[id].hi
    requires st.calls[id].Watches(i) && i in st.socks
    ensures var c, k := st.calls[id], st.socks[i];
      Step(st, Advance(id)) ==
      st.(calls := st.calls[id := c.(pc := Reg(i + 1))],
          socks := st.socks[i := k.(waiting := (k.waiting + 1) % WAITING_MODULUS)])
  {
  }

  lemma NextWaiting(k: nat)
    ensures (k % WAITING_MODULUS + 1) % WAITING_MODULUS == (k + 1) % WAITING_MODULUS
  {
  }

  lemma NextCounter(k: nat)
    ensures (k % CTR_MODULUS + 1) % CTR_MODULUS == (k + 1) % CTR_MODULUS
  {
  }

  lemma AdvanceLink(k: nat)
    ensures Step(Joining(k, Link, false, false), Advance(k)) == Joining(k, Reg(0), true, false)
  {
    hide Sleepers, Stack, Step;
    LinkStep(Joining(k, Link, false, false), k);
    Rewrite(k, Link, Reg(0));
    NextCounter(k);
  }

  lemma AdvanceReg(k: nat)
    ensures Step(Joining(k, Reg(0), true, false), Advance(k)) == Joining(k, Reg(1), true, true)
  {
    hide Sleepers, Stack, Step;
    RegStep(Joining(k, Reg(0), true, false), k, 0);
    Rewrite(k, Reg(0), Reg(1));
    NextWaiting(k);
    assert map[0 := Sock(0, 0, 0, false, k % WAITING_MODULUS)][0 := Sock(0, 0, 0, false, (k + 1) % WAITING_MODULUS)]
        == map[0 := Sock(0, 0, 0, false, (k + 1) % WAITING_MODULUS)];
  }

  lemma JoinsAsFarAsList(k: nat, n: nat, m: nat)
    requires k < n && Reachable(Crowd(k), n, m)
    ensures Reachable(Joining(k, Reg(0), true, false), n, m)
  {
    JoinReaches(k, Crowd(k), Begin(k, 0, 1, {0}, {}, {}, Forever), Scan1(0), false, false, n, m);
    AdvanceAlone(k, Scan1(0), false, false, Scan1(1));
    JoinReaches(k, Joining(k, Scan1(0), false, false), Advance(k), Scan1(1), false, false, n, m);
    AdvanceAlone(k, Scan1(1), false, false, Link);
    JoinReaches(k, Joining(k, Scan1(1), false, false), Advance(k), Link, false, false, n, m);
    AdvanceLink(k);
    JoinReaches(k, Joining(k, Link, false, false), Advance(k), Reg(0), true, false, n, m);
  }

  lemma JoinsFromListToSleep(k: nat, n: nat, m: nat)
    requires k < n && Reachable(Joining(k, Reg(0), true, false), n, m)
    ensures Reachable(Joining(k, Asleep, true, true), n, m)
  {
    AdvanceReg(k);
    JoinReaches(k, Joining(k, Reg(0), true, false), Advance(k), Reg(1), true, true, n, m);
    AdvanceAlone(k, Reg(1), true, true, Scan2(0));
    JoinReaches(k, Joining(k, Reg(1), true, true), Advance(k), Scan2(0), true, true, n, m);
    AdvanceAlone(k, Scan2(0), true, true, Scan2(1));
    JoinReaches(k, Joining(k, Scan2(0), true, true), Advance(k), Scan2(1), true, true, n, m);
    AdvanceAlone(k, Scan2(1), true, true, Asleep);
    JoinReaches(k, Joining(k, Scan2(1), true, true), Advance(k), Asleep, true, true, n, m);
  }

  lemma {:induction false} CrowdReachable(k: nat, n: nat, m: nat)
    requires k <= n
    ensures Reachable(Crowd(k), n, m)
  {
    hide Reachable, Step, Crowd, Joining;
    if k == 0 {
      NobodyReachable(n, m);
    } else {
      CrowdReachable(k - 1, n, m);
      JoinsAsFarAsList(k - 1, n, m);
      JoinsFromListToSleep(k - 1, n, m);
      JoinedIsCrowd(k - 1);
    }
  }

  lemma NobodyReachable(n: nat, m: nat)
    ensures Reachable(Crowd(0), n, m)
  {
    hide Reachable, DeliverTo, WalkOn, AdvanceCall;
    Begins(n, m);
    assert Step(INIT, Open(0, false)) == Crowd(0);
    FewCalls(Crowd(0), n, m);
    Reaches(INIT, Open(0, false), n, m);
  }

  lemma JoinedIsCrowd(k: nat)
    ensures Joining(k, Asleep, true, true) == Crowd(k + 1)
  {
  }

  /** The state after data arrived for the crowd: unread, and no delivery under way. */
  function Unheard(k: nat): State {
    Crowd(k).(socks := map[0 := Sock(1, 0, 0, false, k % WAITING_MODULUS)])
  }

  /** A delivery to a socket whose count of waiting calls reads 0, on any state. */
  lemma UncountedStep(st: State, w: Id, fd: int)
    requires w !in st.walks && fd in st.socks && st.socks[fd].waiting == 0 && st.socks[fd].rcvevent == 0
    ensures Step(st, Deliver(w, fd, RcvPlus)) == st.(socks := st.socks[fd := st.socks[fd].(rcvevent := 1)])
  {
  }

  lemma DeliveryUnheard(k: nat)
    requires k % WAITING_MODULUS == 0
    ensures Step(Crowd(k), Deliver(0, 0, RcvPlus)) == Unheard(k)
  {
    hide Step, Sleepers, Stack;
    UncountedStep(Crowd(k), 0, 0);
    assert map[0 := Sock(0, 0, 0, false, 0)][0 := Sock(1, 0, 0, false, 0)] == map[0 := Sock(1, 0, 0, false, 0)];
  }

  lemma {:induction false} SomeoneSleeps(k: nat)
    requires k > 0
    ensures 0 in Sleepers(k)
  {
    if k > 1 {
      SomeoneSleeps(k - 1);
    }
  }

  lemma UnheardIsLost(k: nat)
    requires k > 0
    ensures !NoLostWakeup(Unheard(k))
  {
    SomeoneSleeps(k);
    var st := Unheard(k);
    assert st.calls[0] == OnZero(Asleep);
    assert !HasWalk(st, 0, 0);
    assert Test(st.calls[0], st.socks[0], 0);
  }

  /** 256 calls sleep on one socket, data arrives, and nothing will ever tell them. */
  lemma WakeupLost(n: nat, m: nat)
    requires n >= WAITING_MODULUS
    ensures exists st :: Reachable(st, n, m) && !NoLostWakeup(st)
  {
    CrowdReachable(WAITING_MODULUS, n, m);
    DeliveryUnheard(WAITING_MODULUS);
    FewCalls(Unheard(WAITING_MODULUS), n, m);
    Reaches(Crowd(WAITING_MODULUS), Deliver(0, 0, RcvPlus), n, m);
    UnheardIsLost(WAITING_MODULUS);
  }

  /** No wake-up is ever lost exactly when fewer than 256 calls register on one socket at a time. */
  lemma NoLostWakeupExactly(n: nat, m: nat)
    requires m < CTR_MODULUS
    ensures (forall st | Reachable(st, n, m) :: NoLostWakeup(st)) <==> n < WAITING_MODULUS
  {
    if n < WAITING_MODULUS {
      forall st | Reachable(st, n, m) ensures NoLostWakeup(st) {
        var acts :| StaysBounded(acts, n, m) && Exec(acts) == st;
        RunIsSafe(acts, n, m);
      }
    } else {
      WakeupLost(n, m);
    }
  }

  // ---------------------------------------------------------------- 2^32 list changes

  /** Delivery 0 holds no lock and stands at waiter 0, which it met before the second list change. */
  function Stale(g: nat, calls: map<Id, Call>, list: seq<Id>): State {
    State(map[0 := Sock(1, 0, 0, false, 0)], calls, map[0 := Walk(0, 0, 1, 1)], list, g % CTR_MODULUS, g)
  }

  /** A call that watches nothing and times out. */
  function Idle(pc: Pc, out: bool): Call {
    Call(0, 0, {}, {}, {}, Finite, pc, 0, 0, false, 0, out)
  }

  function IdleAt(g: nat, pc: Pc, out: bool, list: seq<Id>): State {
    Stale(g, map[1 := Idle(pc, out)], list)
  }

  lemma StaleBounded(g: nat, calls: map<Id, Call>, list: seq<Id>, n: nat, m: nat)
    requires n >= 1 && g <= m + 1 && calls.Keys <= {1}
    ensures Bounded(Stale(g, calls, list), n, m)
  {
    SubsetSize(calls.Keys, {1});
    FewCalls(Stale(g, calls, list), n, m);
  }

  lemma IdleReaches(st: State, a: Action, g: nat, pc: Pc, out: bool, list: seq<Id>, n: nat, m: nat)
    requires Reachable(st, n, m) && n >= 1 && g <= m + 1
    requires Step(st, a) == IdleAt(g, pc, out, list)
    ensures Reachable(IdleAt(g, pc, out, list), n, m)
  {
    StaleBounded(g, map[1 := Idle(pc, out)], list, n, m);
    Reaches(st, a, n, m);
  }

  lemma OneCall(c: Call, c': Call)
    ensures map[1 as Id := c][1 := c'] == map[1 := c']
    ensures map[1 as Id := c] - {1} == map[]
  {
  }

  lemma IdleComes(g: nat)
    ensures Step(Stale(g, map[], []), Begin(1, 0, 0, {}, {}, {}, Finite)) == IdleAt(g, Scan1(0), false, [])
    ensures Step(IdleAt(g, Scan1(0), false, []), Advance(1)) == IdleAt(g, Link, false, [])
    ensures Step(IdleAt(g, Link, false, []), Advance(1)) == IdleAt(g + 1, Reg(0), false, [1])
  {
    OneCall(Idle(Scan1(0), false), Idle(Link, false));
    OneCall(Idle(Link, false), Idle(Reg(0), false));
  }

  lemma IdleSleeps(g: nat)
    ensures Step(IdleAt(g, Reg(0), false, [1]), Advance(1)) == IdleAt(g, Scan2(0), false, [1])
    ensures Step(IdleAt(g, Scan2(0), false, [1]), Advance(1)) == IdleAt(g, Asleep, false, [1])
    ensures Step(IdleAt(g, Asleep, false, [1]), TimeOut(1)) == IdleAt(g, Dereg(0), true, [1])
  {
    OneCall(Idle(Reg(0), false), Idle(Scan2(0), false));
    OneCall(Idle(Scan2(0), false), Idle(Asleep, false));
    OneCall(Idle(Asleep, false), Idle(Dereg(0), true));
  }

  lemma IdleGoes(g: nat)
    ensures Step(IdleAt(g, Dereg(0), true, [1]), Advance(1)) == IdleAt(g, Unlink, true, [1])
    ensures Step(IdleAt(g, Unlink, true, [1]), Advance(1)) == Stale(g + 1, map[], [])
  {
    OneCall(Idle(Dereg(0), true), Idle(Unlink, true));
    OneCall(Idle(Unlink, true), Idle(Unlink, true));
  }

  /** The idle call joins the list. */
  lemma IdleJoins(g: nat, n: nat, m: nat)
    requires n >= 1 && g <= m && Reachable(Stale(g, map[], []), n, m)
    ensures Reachable(IdleAt(g + 1, Reg(0), false, [1]), n, m)
  {
    IdleComes(g);
    IdleReaches(Stale(g, map[], []), Begin(1, 0, 0, {}, {}, {}, Finite), g, Scan1(0), false, [], n, m);
    IdleReaches(IdleAt(g, Scan1(0), false, []), Advance(1), g, Link, false, [], n, m);
    IdleReaches(IdleAt(g, Link, false, []), Advance(1), g + 1, Reg(0), false, [1], n, m);
  }

  /** ... sleeps, times out, and is gone. */
  lemma IdleLeaves(g: nat, n: nat, m: nat)
    requires n >= 1 && g <= m && Reachable(IdleAt(g, Reg(0), false, [1]), n, m)
    ensures Reachable(Stale(g + 1, map[], []), n, m)
  {
    IdleSleeps(g);
    IdleReaches(IdleAt(g, Reg(0), false, [1]), Advance(1), g, Scan2(0), false, [1], n, m);
    IdleReaches(IdleAt(g, Scan2(0), false, [1]), Advance(1), g, Asleep, false, [1], n, m);
    IdleReaches(IdleAt(g, Asleep, false, [1]), TimeOut(1), g, Dereg(0), true, [1], n, m);
    IdleGoes(g);
    IdleReaches(IdleAt(g, Dereg(0), true, [1]), Advance(1), g, Unlink, true, [1], n, m);
    StaleBounded(g + 1, map[], [], n, m);
    Reaches(IdleAt(g, Unlink, true, [1]), Advance(1), n, m);
  }

  lemma IdlePasses(g: nat, n: nat, m: nat)
    requires n >= 1 && g + 1 <= m && Reachable(Stale(g, map[], []), n, m)
    ensures Reachable(Stale(g + 2, map[], []), n, m)
  {
    IdleJoins(g, n, m);
    IdleLeaves(g + 1, n, m);
  }

  lemma {:induction false} IdleRepeats(start: nat, times: nat, n: nat, m: nat)
    requires n >= 1 && start + 2 * times <= m + 1 && Reachable(Stale(start, map[], []), n, m)
    ensures Reachable(Stale(start + 2 * times, map[], []), n, m)
    decreases times
  {
    hide Reachable;
    if times > 0 {
      IdlePasses(start, n, m);
      IdleRepeats(start + 2, times - 1, n, m);
      assert start + 2 + 2 * (times - 1) == start + 2 * times;
    }
  }

  // ---------------------------------------------------------------- how delivery 0 came to stand at waiter 0

  function First(pc: Pc, nready: int, told: bool): Call {
    Call(0, 1, {0}, {}, {}, Forever, pc, nready, 1, told, if told then 1 else 0, false)
  }

  /** The first call before the event ... */
  function Before(pc: Pc, linked: bool, waiting: int): State {
    State(map[0 := Sock(0, 0, 0, false, waiting)], map[0 := First(pc, 0, false)], map[],
          if linked then [0] else [], if linked then 1 else 0, if linked then 1 else 0)
  }

  /** ... and after it, until it has left the list. */
  function After(pc: Pc, nready: int, waiting: int): State {
    State(map[0 := Sock(1, 0, 0, false, waiting)], map[0 := First(pc, nready, true)], map[0 := Walk(0, 0, 1, 1)],
          [0], 1, 1)
  }

  function Gone(i: int, nready: int): State {
    State(map[0 := Sock(1, 0, 0, false, 0)], map[0 := First(Scan3(i), nready, true)], map[0 := Walk(0, 0, 1, 1)],
          [], 2, 2)
  }

  lemma SingleReaches(st: State, a: Action, n: nat, m: nat)
    requires Reachable(st, n, m) && n >= 1 && m >= 1
    requires Step(st, a).calls.Keys <= {0}
    requires Step(st, a).gen <= 2
    requires forall w :: w in Step(st, a).walks ==> Step(st, a).walks[w].gen == 1
    ensures Reachable(Step(st, a), n, m)
  {
    SubsetSize(Step(st, a).calls.Keys, {0});
    FewCalls(Step(st, a), n, m);
    Reaches(st, a, n, m);
  }

  lemma OnlyZero<T>(x: T, y: T)
    ensures map[0 := x][0 := y] == map[0 := y]
    ensures map[0 as Id := x][0 := y] == map[0 := y]
    ensures map[0 as Id := x] - {0} == map[]
  {
  }

  lemma FirstComes()
    ensures Step(Crowd(0), Begin(0, 0, 1, {0}, {}, {}, Forever)) == Before(Scan1(0), false, 0)
    ensures Step(Before(Scan1(0), false, 0), Advance(0)) == Before(Scan1(1), false, 0)
    ensures Step(Before(Scan1(1), false, 0), Advance(0)) == Before(Link, false, 0)
  {
    OnlyZero(First(Scan1(0), 0, false), First(Scan1(1), 0, false));
    OnlyZero(First(Scan1(1), 0, false), First(Link, 0, false));
  }

  lemma FirstRegisters()
    ensures Step(Before(Link, false, 0), Advance(0)) == Before(Reg(0), true, 0)
    ensures Step(Before(Reg(0), true, 0), Advance(0)) == Before(Reg(1), true, 1)
  {
    OnlyZero(First(Link, 0, false), First(Reg(0), 0, false));
    OnlyZero(First(Reg(0), 0, false), First(Reg(1), 0, false));
    OnlyZero(Sock(0, 0, 0, false, 0), Sock(0, 0, 0, false, 1));
  }

  /** A delivery to a socket with a registered call, on any state. */
  lemma CountedStep(st: State, w: Id, fd: int)
    requires w !in st.walks && fd in st.socks && st.socks[fd].waiting != 0 && st.socks[fd].rcvevent == 0
    ensures Step(st, Deliver(w, fd, RcvPlus))
         == VisitHead(st.(socks := st.socks[fd := st.socks[fd].(rcvevent := 1)]), w, fd)
  {
    hide VisitHead;
  }

  lemma FirstIsTold()
    ensures Step(Before(Reg(1), true, 1), Deliver(0, 0, RcvPlus)) == After(Reg(1), 0, 1)
  {
    hide Step, VisitHead, After;
    var st := Before(Reg(1), true, 1);
    CountedStep(st, 0, 0);
    OnlyZero(Sock(0, 0, 0, false, 1), Sock(1, 0, 0, false, 1));
    FirstIsVisited(st.(socks := st.socks[0 := Sock(1, 0, 0, false, 1)]));
  }

  lemma FirstIsVisited(st: State)
    requires st == Before(Reg(1), true, 1).(socks := map[0 := Sock(1, 0, 0, false, 1)])
    ensures VisitHead(st, 0, 0) == After(Reg(1), 0, 1)
  {
    OnlyZero(First(Reg(1), 0, false), First(Reg(1), 0, true));
    assert st.list[0] == 0;
    assert Test(st.calls[0], st.socks[0], 0);
    assert map[][0 as Id := Walk(0, 0, 1, 1)] == map[0 := Walk(0, 0, 1, 1)];
  }

  lemma FirstScansAgain()
    ensures Step(After(Reg(1), 0, 1), Advance(0)) == After(Scan2(0), 0, 1)
    ensures Step(After(Scan2(0), 0, 1), Advance(0)) == After(Scan2(1), 1, 1)
    ensures Step(After(Scan2(1), 1, 1), Advance(0)) == After(Dereg(0), 1, 1)
  {
    OnlyZero(First(Reg(1), 0, true), First(Scan2(0), 0, true));
    OnlyZero(First(Scan2(0), 0, true), First(Scan2(1), 1, true));
    OnlyZero(First(Scan2(1), 1, true), First(Dereg(0), 1, true));
  }

  lemma FirstDeregisters()
    ensures Step(After(Dereg(0), 1, 1), Advance(0)) == After(Dereg(1), 1, 0)
    ensures Step(After(Dereg(1), 1, 0), Advance(0)) == After(Unlink, 1, 0)
    ensures Step(After(Unlink, 1, 0), Advance(0)) == Gone(0, 0)
  {
    OnlyZero(First(Dereg(0), 1, true), First(Dereg(1), 1, true));
    OnlyZero(Sock(1, 0, 0, false, 1), Sock(1, 0, 0, false, 0));
    OnlyZero(First(Dereg(1), 1, true), First(Unlink, 1, true));
    OnlyZero(First(Unlink, 1, true), First(Scan3(0), 0, true));
  }

  lemma FirstReturns()
    ensures Step(Gone(0, 0), Advance(0)) == Gone(1, 1)
    ensures Step(Gone(1, 1), Advance(0)) == Stale(2, map[], [])
  {
    OnlyZero(First(Scan3(0), 0, true), First(Scan3(1), 1, true));
    OnlyZero(First(Scan3(1), 1, true), First(Scan3(1), 1, true));
  }

  lemma StaleWalkBefore(n: nat, m: nat)
    requires n >= 1 && m >= 1
    ensures Reachable(After(Reg(1), 0, 1), n, m)
  {
    CrowdReachable(0, n, m);
    FirstComes();
    SingleReaches(Crowd(0), Begin(0, 0, 1, {0}, {}, {}, Forever), n, m);
    SingleReaches(Before(Scan1(0), false, 0), Advance(0), n, m);
    SingleReaches(Before(Scan1(1), false, 0), Advance(0), n, m);
    FirstRegisters();
    SingleReaches(Before(Link, false, 0), Advance(0), n, m);
    SingleReaches(Before(Reg(0), true, 0), Advance(0), n, m);
    FirstIsTold();
    SingleReaches(Before(Reg(1), true, 1), Deliver(0, 0, RcvPlus), n, m);
  }

  lemma StaleWalk(n: nat, m: nat)
    requires n >= 1 && m >= 1
    ensures Reachable(Stale(2, map[], []), n, m)
  {
    StaleWalkBefore(n, m);
    FirstScansAgain();
    SingleReaches(After(Reg(1), 0, 1), Advance(0), n, m);
    SingleReaches(After(Scan2(0), 0, 1), Advance(0), n, m);
    SingleReaches(After(Scan2(1), 1, 1), Advance(0), n, m);
    FirstDeregisters();
    SingleReaches(After(Dereg(0), 1, 1), Advance(0), n, m);
    SingleReaches(After(Dereg(1), 1, 0), Advance(0), n, m);
    SingleReaches(After(Unlink, 1, 0), Advance(0), n, m);
    FirstReturns();
    SingleReaches(Gone(0, 0), Advance(0), n, m);
    SingleReaches(Gone(1, 1), Advance(0), n, m);
  }

  lemma WrappedIsUnsafe()
    ensures !WalkSafe(IdleAt(CTR_MODULUS + 1, Reg(0), false, [1]))
  {
    var st := IdleAt(CTR_MODULUS + 1, Reg(0), false, [1]);
    assert st.walks[0].seen == st.ctr && st.walks[0].at !in st.list;
  }

  /** 2^32 changes later the counter reads as before, and the waiter is long gone. */
  lemma WalkFollowsDeadPointer(n: nat, m: nat)
    requires n >= 1 && m >= CTR_MODULUS
    ensures Reachable(IdleAt(CTR_MODULUS + 1, Reg(0), false, [1]), n, m)
    ensures !WalkSafe(IdleAt(CTR_MODULUS + 1, Reg(0), false, [1]))
  {
    StaleWalk(n, m);
    IdleRepeats(2, CTR_MODULUS / 2 - 1, n, m);
    IdleJoins(CTR_MODULUS, n, m);
    WrappedIsUnsafe();
  }

  /** Deliveries only touch waiters that are there exactly when fewer than 2^32 list changes can
      happen while one of them has the lock released. */
  lemma WalkSafeExactly(n: nat, m: nat)
    requires 1 <= n < WAITING_MODULUS
    ensures (forall st | Reachable(st, n, m) :: WalkSafe(st)) <==> m < CTR_MODULUS
  {
    if m < CTR_MODULUS {
      forall st | Reachable(st, n, m) ensures WalkSafe(st) {
        var acts :| StaysBounded(acts, n, m) && Exec(acts) == st;
        RunIsSafe(acts, n, m);
      }
    } else {
      WalkFollowsDeadPointer(n, m);
    }
  }
}
