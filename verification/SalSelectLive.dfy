/** Wake-ups do arrive: a sleeper on a ready socket is signalled, whatever the other tasks do in between. */
module SalSelectLive {
  import opened SalSelect
  import opened SalSelectProof

  ghost function Place(st: State, w: Id): nat
    requires w in st.walks
  {
    if st.walks[w].at in st.list then Position(st.list, st.walks[w].at) else |st.list|
  }

  /** Delivery w owes list position b a visit. */
  ghost predicate Owes(st: State, w: Id, b: nat)
    requires w in st.walks
  {
    st.walks[w].gen == st.gen ==> Place(st, w) < b
  }

  /** The node the next step of w visits: the head after a change, else the successor. */
  lemma NextVisit(st: State, w: Id, b: nat) returns (next: nat)
    requires WalksOk(st) && ListOk(st) && w in st.walks && b < |st.list| && Owes(st, w, b)
    requires st.gen - st.walks[w].gen < CTR_MODULUS
    ensures st.walks[w].s in st.socks
    ensures next == if st.walks[w].gen == st.gen then Place(st, w) + 1 else 0
    ensures next <= b && st.list[next] in st.calls
    ensures Step(st, WalkStep(w)) == Visit(st, w, st.walks[w].s, st.list[next])
  {
    var k := st.walks[w];
    assert WalkOk(st, k);
    next := if k.gen == st.gen then Place(st, w) + 1 else 0;
    assert st.list[next] in st.list;
  }

  lemma PlaceAfterVisit(st: State, w: Id, s: int, next: nat)
    requires ListOk(st) && next < |st.list| && s in st.socks && st.list[next] in st.calls
    ensures Place(Visit(st, w, s, st.list[next]), w) == next
  {
    assert st.list[Position(st.list, st.list[next])] == st.list[next];
  }

  /** Waiter id still waits and is still owed after a visit to a node before it. */
  ghost predicate Awaits(st: State, w: Id, id: Id, b: nat) {
    && w in st.walks && st.walks[w].s in st.socks
    && b < |st.list| && st.list[b] == id && Owes(st, w, b) && id in st.calls
    && !st.calls[id].signalled && Test(st.calls[id], st.socks[st.walks[w].s], st.walks[w].s)
  }

  lemma VisitAnother(st: State, w: Id, id: Id, b: nat, next: nat)
    requires ListOk(st) && Awaits(st, w, id, b) && next < b && st.list[next] in st.calls
    ensures Awaits(Visit(st, w, st.walks[w].s, st.list[next]), w, id, b)
  {
    PlaceAfterVisit(st, w, st.walks[w].s, next);
    assert st.list[next] != id;
  }

  lemma VisitIt(st: State, w: Id, id: Id, b: nat)
    requires Awaits(st, w, id, b)
    ensures Visit(st, w, st.walks[w].s, id).calls[id].signalled
  {
  }

  /** One step of a delivery that id awaits: id is signalled, or the delivery comes closer. */
  lemma WalkComesCloser(st: State, w: Id, id: Id, b: nat)
    requires ListOk(st) && WalksOk(st) && Awaits(st, w, id, b) && st.gen - st.walks[w].gen < CTR_MODULUS
    ensures var st' := Step(st, WalkStep(w));
      || (id in st'.calls && st'.calls[id].signalled)
      || (&& Awaits(st', w, id, b)
          && st'.walks[w].gen == st'.gen && |st'.list| == |st.list|
          && (st.walks[w].gen == st.gen ==> Place(st', w) > Place(st, w)))
  {
    var next := NextVisit(st, w, b);
    if next == b {
      VisitIt(st, w, id, b);
    } else {
      PlaceAfterVisit(st, w, st.walks[w].s, next);
      VisitAnother(st, w, id, b, next);
    }
  }

  /** How many visits w needs to come to place b. */
  ghost function Due(st: State, w: Id, b: nat): int {
    if w in st.walks && st.walks[w].gen == st.gen then b - Place(st, w) else b + 1
  }

  /** The call sleeps on a socket that is ready. */
  ghost predicate StillWaits(st: State, id: Id, s: int) {
    id in st.calls && st.calls[id].pc.Asleep? && s in st.socks && Test(st.calls[id], st.socks[s], s)
  }

  function Own(more: seq<Action>, w: Id): nat {
    if more == [] then 0
    else Own(more[..|more| - 1], w) + if more[|more| - 1] == WalkStep(w) then 1 else 0
  }

  lemma GenGrows(st: State, a: Action)
    ensures Step(st, a).gen >= st.gen
    ensures Step(st, a).gen == st.gen ==> Step(st, a).list == st.list
  {
  }

  lemma OthersLeaveWalk(st: State, a: Action, w: Id)
    requires w in st.walks && a != WalkStep(w)
    ensures w in Step(st, a).walks && Step(st, a).walks[w] == st.walks[w]
  {
  }

  /** Whatever another task does, a sleeper that still waits is still owed as much as before, or signalled. */
  lemma OthersOweNoMore(st: State, a: Action, w: Id, id: Id, b: nat)
    requires Awaits(st, w, id, b) && a != WalkStep(w) && Step(st, a).gen == st.gen
    requires StillWaits(Step(st, a), id, st.walks[w].s)
    ensures var st' := Step(st, a);
      && w in st'.walks && st'.walks[w].s == st.walks[w].s
      && (!st'.calls[id].signalled ==> Awaits(st', w, id, b) && Due(st', w, b) == Due(st, w, b))
  {
    hide Step, Test;
    GenGrows(st, a);
    OthersLeaveWalk(st, a, w);
  }

  lemma SignalledStays(st: State, a: Action, id: Id)
    requires id in st.calls && st.calls[id].pc.Asleep? && st.calls[id].signalled
    requires id in Step(st, a).calls && Step(st, a).calls[id].pc.Asleep?
    ensures Step(st, a).calls[id].signalled
  {
    hide Test, Found, Bump, Position, AdvanceCall;
    if a.Advance? && a.id in st.calls {
      if a.id == id {
        SleepsOn(st, id);
      } else {
        AdvanceOthers(st, a.id, id);
      }
    }
  }

  lemma SleepsOn(st: State, id: Id)
    requires id in st.calls && st.calls[id].pc.Asleep?
    ensures AdvanceCall(st, id) == st
  {
  }

  ghost predicate DueOn(st: State, w: Id, id: Id, s: int, b: nat) {
    Awaits(st, w, id, b) && st.walks[w].s == s
  }

  /** Signalled, or owed less by every step of w in between. */
  ghost predicate Nearer(st: State, w: Id, id: Id, s: int, b: nat, most: int) {
    || (id in st.calls && st.calls[id].signalled)
    || (Awaits(st, w, id, b) && st.walks[w].s == s && Due(st, w, b) <= most)
  }

  lemma NearerStep(st: State, a: Action, w: Id, id: Id, s: int, b: nat, most: int)
    requires Inv(st) && WithinLimits(st) && Nearer(st, w, id, s, b, most)
    requires Step(st, a).gen == st.gen && StillWaits(st, id, s) && StillWaits(Step(st, a), id, s)
    ensures Nearer(Step(st, a), w, id, s, b, most - if a == WalkStep(w) then 1 else 0)
  {
    hide ListOk, CallsOk, Counted, Covered, Step, Test, WalkOk;
    if st.calls[id].signalled {
      SignalledStays(st, a, id);
    } else if a == WalkStep(w) {
      WalkComesCloser(st, w, id, b);
      VisitKeepsSocket(st, w, b);
    } else {
      OthersOweNoMore(st, a, w, id, b);
    }
  }

  lemma VisitKeepsSocket(st: State, w: Id, b: nat)
    requires WalksOk(st) && ListOk(st) && w in st.walks && b < |st.list| && Owes(st, w, b)
    requires st.gen - st.walks[w].gen < CTR_MODULUS
    ensures var st' := Step(st, WalkStep(w)); w in st'.walks && st'.walks[w].s == st.walks[w].s
  {
    var next := NextVisit(st, w, b);
  }

  /** The run goes on within the limits, the waiter list stays as it is, the call keeps sleeping on s and s stays
      ready. */
  ghost predicate Steady(acts: seq<Action>, more: seq<Action>, id: Id, s: int) {
    && StaysBounded(acts + more, WAITING_MODULUS - 1, CTR_MODULUS - 1)
    && forall k :: 0 <= k <= |more| ==>
         Exec(acts + more[..k]).gen == Exec(acts).gen && StillWaits(Exec(acts + more[..k]), id, s)
  }

  lemma SteadyPrefix(acts: seq<Action>, more: seq<Action>, id: Id, s: int)
    requires Steady(acts, more, id, s) && more != []
    ensures var n := |more| - 1;
      && (acts + more)[..|acts + more| - 1] == acts + more[..n] && (acts + more)[|acts + more| - 1] == more[n]
      && Steady(acts, more[..n], id, s)
  {
    hide Exec, StillWaits, Bounded;
    var n := |more| - 1;
    var before, all := acts + more[..n], acts + more;
    assert all[..|all| - 1] == before && all[|all| - 1] == more[n];
    BoundedBefore(all);
    forall k | 0 <= k <= n
      ensures Exec(acts + more[..n][..k]).gen == Exec(acts).gen && StillWaits(Exec(acts + more[..n][..k]), id, s)
    {
      assert more[..n][..k] == more[..k];
    }
  }

  lemma SteadyEnd(acts: seq<Action>, more: seq<Action>, id: Id, s: int)
    requires Steady(acts, more, id, s)
    ensures var st := Exec(acts + more);
      Inv(st) && WithinLimits(st) && st.gen == Exec(acts).gen && StillWaits(st, id, s)
  {
    hide Exec, Inv, StillWaits, Bounded;
    var all := acts + more;
    assert more[..|more|] == more && all[..|all|] == all;
    RunKeeps(all);
  }

  lemma SteadyBefore(acts: seq<Action>, more: seq<Action>, id: Id, s: int)
    requires Steady(acts, more, id, s) && more != []
    ensures var n := |more| - 1;
      var st := Exec(acts + more[..n]);
      && Steady(acts, more[..n], id, s)
      && Inv(st) && WithinLimits(st) && Exec(acts + more) == Step(st, more[n])
      && Step(st, more[n]).gen == st.gen && StillWaits(st, id, s) && StillWaits(Step(st, more[n]), id, s)
  {
    hide Exec, Inv, Step, StillWaits, Steady, WithinLimits;
    SteadyPrefix(acts, more, id, s);
    SteadyEnd(acts, more, id, s);
    SteadyEnd(acts, more[..|more| - 1], id, s);
    LastStep(acts + more);
  }

  lemma LastStep(all: seq<Action>)
    requires all != []
    ensures Exec(all) == Step(Exec(all[..|all| - 1]), all[|all| - 1])
  {
    hide Step;
  }

  lemma {:induction false} ComesNearer(acts: seq<Action>, more: seq<Action>, w: Id, id: Id, s: int, b: nat)
    requires Steady(acts, more, id, s) && DueOn(Exec(acts), w, id, s, b)
    ensures Nearer(Exec(acts + more), w, id, s, b, Due(Exec(acts), w, b) - Own(more, w))
    decreases |more|
  {
    hide Inv, Step, StillWaits, DueOn, Due, WithinLimits, Steady, Exec, Nearer;
    if more == [] {
      assert acts + more == acts;
      StartsNear(Exec(acts), w, id, s, b);
    } else {
      var n := |more| - 1;
      SteadyBefore(acts, more, id, s);
      ComesNearer(acts, more[..n], w, id, s, b);
      NearerStep(Exec(acts + more[..n]), more[n], w, id, s, b, Due(Exec(acts), w, b) - Own(more[..n], w));
    }
  }

  lemma StartsNear(st: State, w: Id, id: Id, s: int, b: nat)
    requires DueOn(st, w, id, s, b)
    ensures Nearer(st, w, id, s, b, Due(st, w, b))
  {
  }

  lemma BoundedBefore(all: seq<Action>)
    requires all != [] && StaysBounded(all, WAITING_MODULUS - 1, CTR_MODULUS - 1)
    ensures StaysBounded(all[..|all| - 1], WAITING_MODULUS - 1, CTR_MODULUS - 1)
  {
    hide Bounded;
    var before := all[..|all| - 1];
    forall k | 0 <= k <= |before| ensures WithinLimits(Exec(before[..k])) {
      assert before[..k] == all[..k];
    }
  }

  lemma OwesWhatIsAhead(st: State, w: Id, id: Id)
    requires ListOk(st) && WalksOk(st) && w in st.walks && id in st.list && Ahead(st, w, id)
    ensures Owes(st, w, Position(st.list, id))
  {
    if st.walks[w].gen == st.gen {
      var a, b :| 0 <= a < b < |st.list| && st.list[a] == st.walks[w].at && st.list[b] == id;
      assert b == Position(st.list, id);
      assert a == Position(st.list, st.list[a]);
    }
  }

  /** No lost wake-up, in full: for whoever sleeps unsignalled on a ready socket there is a delivery under way
      that signals it, in any interleaving with the other tasks, within |list| steps of its own after the last
      change of the list. */
  lemma SleeperIsReached(acts: seq<Action>, id: Id, s: int) returns (w: Id)
    requires StaysBounded(acts, WAITING_MODULUS - 1, CTR_MODULUS - 1)
    requires StillWaits(Exec(acts), id, s) && Exec(acts).calls[id].Watches(s) && !Exec(acts).calls[id].signalled
    ensures w in Exec(acts).walks && Exec(acts).walks[w].s == s
    ensures forall more :: Steady(acts, more, id, s) && Own(more, w) >= |Exec(acts).list| ==>
      id in Exec(acts + more).calls && Exec(acts + more).calls[id].signalled
  {
    hide Due, Nearer, Steady;
    var b;
    w, b := DeliveryFor(acts, id, s);
    forall more | Steady(acts, more, id, s) && Own(more, w) >= |Exec(acts).list|
      ensures id in Exec(acts + more).calls && Exec(acts + more).calls[id].signalled
    {
      ComesNearer(acts, more, w, id, s, b);
      NearEnough(Exec(acts), Exec(acts + more), w, id, s, b, Own(more, w));
    }
  }

  lemma DeliveryFor(acts: seq<Action>, id: Id, s: int) returns (w: Id, b: nat)
    requires StaysBounded(acts, WAITING_MODULUS - 1, CTR_MODULUS - 1)
    requires StillWaits(Exec(acts), id, s) && Exec(acts).calls[id].Watches(s) && !Exec(acts).calls[id].signalled
    ensures Awaits(Exec(acts), w, id, b) && Exec(acts).walks[w].s == s
  {
    hide Exec;
    var st := Exec(acts);
    RunKeeps(acts);
    NoneIsLost(st);
    assert HasWalk(st, s, id);
    w :| w in st.walks && st.walks[w].s == s && Ahead(st, w, id);
    assert id in st.list;
    OwesWhatIsAhead(st, w, id);
    b := Position(st.list, id);
  }

  lemma NearEnough(st: State, st': State, w: Id, id: Id, s: int, b: nat, own: nat)
    requires Awaits(st, w, id, b) && Nearer(st', w, id, s, b, Due(st, w, b) - own) && own >= |st.list|
    ensures id in st'.calls && st'.calls[id].signalled
  {
  }

  // ---------------------------------------------------------------- nothing stands in the way

  function Alone(w: Id, n: nat): (more: seq<Action>)
    ensures |more| == n && forall i :: 0 <= i < n ==> more[i] == WalkStep(w)
  {
    seq(n, _ => WalkStep(w))
  }

  lemma WalkStepWithinLimits(st: State, w: Id)
    requires WithinLimits(st)
    ensures WithinLimits(Step(st, WalkStep(w)))
  {
    hide Test, Found, Position;
    var st' := Step(st, WalkStep(w));
    forall t | t in st'.socks ensures |Watchers(st', t)| <= WAITING_MODULUS - 1 {
      assert Watchers(st', t) == Watchers(st, t);
    }
  }

  lemma WalkStepDisturbsNobody(st: State, w: Id, id: Id, s: int)
    requires StillWaits(st, id, s)
    ensures StillWaits(Step(st, WalkStep(w)), id, s) && Step(st, WalkStep(w)).gen == st.gen
  {
    hide Found, Position;
  }

  /** The delivery can take any number of steps in a row, and the call sleeps on meanwhile. */
  lemma {:induction false} AloneIsSteady(acts: seq<Action>, w: Id, id: Id, s: int, n: nat)
    requires StaysBounded(acts, WAITING_MODULUS - 1, CTR_MODULUS - 1) && StillWaits(Exec(acts), id, s)
    ensures Steady(acts, Alone(w, n), id, s) && Own(Alone(w, n), w) == n
  {
    hide Exec, Step, StillWaits, WithinLimits, Bounded;
    if n == 0 {
      assert acts + Alone(w, 0) == acts;
      assert forall k :: 0 <= k <= 0 ==> acts + Alone(w, 0)[..k] == acts;
    } else {
      AloneIsSteady(acts, w, id, s, n - 1);
      var more, before := Alone(w, n), Alone(w, n - 1);
      assert more[..n - 1] == before && more == before + [WalkStep(w)];
      SteadyEnd(acts, before, id, s);
      LastStep(acts + more);
      assert (acts + more)[..|acts + more| - 1] == acts + before;
      WalkStepWithinLimits(Exec(acts + before), w);
      WalkStepDisturbsNobody(Exec(acts + before), w, id, s);
      OneMoreSteady(acts, before, WalkStep(w), id, s);
      assert before + [WalkStep(w)] == more;
    }
  }

  lemma OneMoreSteady(acts: seq<Action>, more: seq<Action>, a: Action, id: Id, s: int)
    requires Steady(acts, more, id, s) && WithinLimits(Exec(acts + (more + [a])))
    requires Exec(acts + (more + [a])).gen == Exec(acts).gen && StillWaits(Exec(acts + (more + [a])), id, s)
    ensures Steady(acts, more + [a], id, s)
  {
    hide Exec, StillWaits, Bounded;
    var all := more + [a];
    forall k | 0 <= k <= |all|
      ensures Exec(acts + all[..k]).gen == Exec(acts).gen && StillWaits(Exec(acts + all[..k]), id, s)
    {
      assert all[..k] == if k < |all| then more[..k] else all;
    }
    forall k | 0 <= k <= |acts + all| ensures WithinLimits(Exec((acts + all)[..k])) {
      assert (acts + all)[..k] == if k <= |acts + more| then (acts + more)[..k] else acts + all;
    }
  }
}
