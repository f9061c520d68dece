/** Who is not signalled: over every run, without any bound, a call is signalled only by a delivery that finds a socket
    of one of its sets ready, while the call is on the list. */
module SalSelectReason {
  import opened SalSelect
  import opened SalSelectProof
  import opened SalSelectLive
  import opened SalSelectLeftover

  /** Step k is taken by a delivery on s while the call is on the list and unsignalled, and the counters that the
      delivery looks at call s ready for one of the sets of the call. */
  ghost predicate Told(acts: seq<Action>, k: nat, id: Id, s: int)
    requires k < |acts|
  {
    var before, after := Exec(acts[..k]), Exec(acts[..k + 1]);
    && OnSocket(before, acts[k], s)
    && id in before.list && id in before.calls && !before.calls[id].signalled
    && s in after.socks
    && ReadyFor(before.calls[id], after.socks[s], s)
  }

  /** The step of a delivery on s. */
  ghost predicate OnSocket(st: State, a: Action, s: int) {
    match a
    case Deliver(_, fd, _) => fd == s
    case WalkStep(w) => w in st.walks && st.walks[w].s == s
    case _ => false
  }

  /** There is something to read, room to send or an error on s, and the call asks for just that. */
  ghost predicate ReadyFor(c: Call, k: Sock, s: int) {
    || (k.rcvevent > 0 && s in c.rd)
    || (k.sendevent != 0 && s in c.wr)
    || (k.errevent != 0 && s in c.ex)
  }

  /** The call has not left the list since step k. */
  ghost predicate ListedSince(acts: seq<Action>, k: nat, id: Id) {
    forall j :: k <= j <= |acts| ==> id in Exec(acts[..j]).list
  }

  ghost predicate HasReason(acts: seq<Action>, id: Id) {
    exists k, s :: 0 <= k < |acts| && Told(acts, k, id, s) && ListedSince(acts, k, id)
  }

  // ---------------------------------------------------------------- single steps

  /** What the list and the signals are before and after every step. */
  ghost predicate Honest(st: State) {
    && ListOk(st)
    && (forall id :: id in st.calls && st.calls[id].pc.Link? ==> !st.calls[id].signalled)
    && (forall id :: id in st.calls && (st.calls[id].pc.Link? || id in st.list) && st.calls[id].sem > 0 ==>
          st.calls[id].signalled)
  }

  lemma ListAfterLink(st: State, id: Id)
    requires ListOk(st) && id in st.calls && st.calls[id].pc.Link?
    ensures ListOk(AdvanceCall(st, id))
  {
    hide Found;
    var st' := AdvanceCall(st, id);
    assert id !in st.list;
    assert st'.list == [id] + st.list;
  }

  lemma ListAfterUnlink(st: State, id: Id)
    requires ListOk(st) && id in st.calls && st.calls[id].pc.Unlink?
    ensures ListOk(AdvanceCall(st, id))
  {
    hide Found, Without;
    WithoutElements(st.list, id);
  }

  lemma OtherKeepsPlace(st: State, id: Id)
    requires id in st.calls && !st.calls[id].pc.Link? && !st.calls[id].pc.Unlink?
    ensures var st' := AdvanceCall(st, id);
      && st'.list == st.list
      && (id in st'.calls && st'.calls[id].Linked() <==> st.calls[id].Linked())
  {
    hide Found, Without, Call.Watches;
  }

  /** Every other step of a call keeps the list, and the call on it or off it. */
  lemma ListAfterOther(st: State, id: Id)
    requires ListOk(st) && id in st.calls && !st.calls[id].pc.Link? && !st.calls[id].pc.Unlink?
    ensures ListOk(AdvanceCall(st, id))
  {
    hide AdvanceCall, Call.Linked;
    OtherKeepsPlace(st, id);
    var st' := AdvanceCall(st, id);
    forall other ensures other in st'.list <==> other in st'.calls && st'.calls[other].Linked() {
      if other != id {
        AdvanceOthers(st, id, other);
      }
    }
  }

  lemma ListAfterAdvance(st: State, id: Id)
    requires ListOk(st) && id in st.calls
    ensures ListOk(AdvanceCall(st, id))
  {
    hide AdvanceCall, ListOk;
    if st.calls[id].pc.Link? {
      ListAfterLink(st, id);
    } else if st.calls[id].pc.Unlink? {
      ListAfterUnlink(st, id);
    } else {
      ListAfterOther(st, id);
    }
  }

  lemma VisitsKeepList(st: State, a: Action)
    requires a.Deliver? || a.WalkStep?
    ensures Step(st, a).list == st.list
    ensures forall id :: id in st.calls ==> id in Step(st, a).calls
  {
    hide Position, Test, Bump;
  }

  lemma ListAfterVisit(st: State, a: Action)
    requires ListOk(st) && (a.Deliver? || a.WalkStep?)
    ensures ListOk(Step(st, a))
  {
    hide Step;
    VisitsKeepList(st, a);
    var st' := Step(st, a);
    forall id ensures id in st'.list <==> id in st'.calls && st'.calls[id].Linked() {
      if id in st'.calls {
        VisitsMoveNothing(st, a, id);
      }
    }
  }

  lemma ListAfterRest(st: State, a: Action)
    requires ListOk(st) && !a.Deliver? && !a.WalkStep? && !a.Advance?
    ensures ListOk(Step(st, a)) && Step(st, a).list == st.list
  {
  }

  lemma ListAfterStep(st: State, a: Action)
    requires ListOk(st)
    ensures ListOk(Step(st, a))
  {
    hide ListOk, AdvanceCall, DeliverTo, WalkOn;
    match a
    case Advance(id) =>
      if id in st.calls {
        ListAfterAdvance(st, id);
      }
    case Deliver(_, _, _) => ListAfterVisit(st, a);
    case WalkStep(_) => ListAfterVisit(st, a);
    case _ => ListAfterRest(st, a);
  }

  // ---------------------------------------------------------------- who is signalled by a step

  /** What one visit does to a call. */
  lemma VisitSignals(st: State, w: Id, s: int, at: Id, id: Id)
    requires s in st.socks && at in st.calls && id in st.calls
    ensures var c, c' := st.calls[id], Visit(st, w, s, at).calls[id];
      c' == c || (id == at && !c.signalled && ReadyFor(c, st.socks[s], s) && c'.signalled
                  && c' == c.(signalled := true, sem := c.sem + 1))
  {
  }

  /** The same for the whole step of a delivery, with the counters it leaves. */
  lemma DeliverySignals(st: State, a: Action, id: Id)
    requires ListOk(st) && (a.Deliver? || a.WalkStep?) && id in st.calls && id in Step(st, a).calls
    requires Step(st, a).calls[id] != st.calls[id]
    ensures var c, c' := st.calls[id], Step(st, a).calls[id];
      && id in st.list && !c.signalled && c' == c.(signalled := true, sem := c.sem + 1)
      && exists s :: s in Step(st, a).socks && OnSocket(st, a, s) && ReadyFor(c, Step(st, a).socks[s], s)
  {
    hide ReadyFor, Bump, Visit, Position;
    match a
    case Deliver(w, fd, evt) =>
      var st1 := st.(socks := st.socks[fd := Bump(st.socks[fd], evt)]);
      VisitSignals(st1, w, fd, st1.list[0], id);
      VisitKeepsSocks(st1, w, fd, st1.list[0]);
      assert OnSocket(st, a, fd);
    case WalkStep(w) =>
      var s := st.walks[w].s;
      assert OnSocket(st, a, s);
      var n := if st.walks[w].seen != st.ctr then 0 else Position(st.list, st.walks[w].at) + 1;
      VisitSignals(st, w, s, st.list[n], id);
      VisitKeepsSocks(st, w, s, st.list[n]);
  }

  lemma VisitKeepsSocks(st: State, w: Id, s: int, at: Id)
    requires s in st.socks && at in st.calls
    ensures Visit(st, w, s, at).socks == st.socks
  {
  }

  // ---------------------------------------------------------------- runs

  /** A call's own steps do not touch its signal, except to clear it before the call gets on the list. */
  ghost predicate SignalStays(st: State, id: Id)
    requires id in st.calls && id in AdvanceCall(st, id).calls
  {
    var c, c' := st.calls[id], AdvanceCall(st, id).calls[id];
    if c'.pc.Link? then !c'.signalled && c'.sem == 0 else c'.signalled == c.signalled && c'.sem == c.sem
  }

  lemma ScanKeepsSignal(st: State, id: Id)
    requires id in st.calls && id in AdvanceCall(st, id).calls
    requires st.calls[id].pc.Scan1? || st.calls[id].pc.Scan2? || st.calls[id].pc.Scan3?
    ensures SignalStays(st, id)
  {
    hide Found;
  }

  lemma LoopKeepsSignal(st: State, id: Id)
    requires id in st.calls && id in AdvanceCall(st, id).calls && (st.calls[id].pc.Reg? || st.calls[id].pc.Dereg?)
    ensures SignalStays(st, id)
  {
    hide Call.Watches, Found, Without;
  }

  lemma ListKeepsSignal(st: State, id: Id)
    requires id in st.calls && id in AdvanceCall(st, id).calls
    requires st.calls[id].pc.Link? || st.calls[id].pc.Asleep? || st.calls[id].pc.Unlink?
    ensures SignalStays(st, id)
  {
    hide Without, Found;
  }

  lemma OwnKeepsSignal(st: State, id: Id)
    requires id in st.calls && id in AdvanceCall(st, id).calls
    ensures var c, c' := st.calls[id], AdvanceCall(st, id).calls[id];
      if c'.pc.Link? then !c'.signalled && c'.sem == 0 else c'.signalled == c.signalled && c'.sem == c.sem
  {
    hide AdvanceCall;
    match st.calls[id].pc
    case Scan1(_) => ScanKeepsSignal(st, id);
    case Scan2(_) => ScanKeepsSignal(st, id);
    case Scan3(_) => ScanKeepsSignal(st, id);
    case Reg(_) => LoopKeepsSignal(st, id);
    case Dereg(_) => LoopKeepsSignal(st, id);
    case _ => ListKeepsSignal(st, id);
  }

  lemma OwnStaysOff(st: State, id: Id)
    requires id in st.calls && !st.calls[id].pc.Link? && id !in st.list
    ensures id !in AdvanceCall(st, id).list
  {
    hide Found, Call.Watches, Without;
    WithoutIsPart(st.list, id, id);
    if !st.calls[id].pc.Unlink? {
      OtherKeepsPlace(st, id);
    }
  }

  lemma {:induction false} WithoutIsPart<T>(list: seq<T>, id: T, x: T)
    requires x !in list
    ensures x !in Without(list, id)
  {
    if list != [] && list[0] != id {
      assert list == [list[0]] + list[1..];
      WithoutIsPart(list[1..], id, x);
    }
  }

  lemma HonestCall(st: State, a: Action, id: Id)
    requires Honest(st) && id in Step(st, a).calls
    ensures var st', c' := Step(st, a), Step(st, a).calls[id];
      && (c'.pc.Link? ==> !c'.signalled)
      && ((c'.pc.Link? || id in st'.list) && c'.sem > 0 ==> c'.signalled)
  {
    hide AdvanceCall, DeliverTo, WalkOn, ListOk;
    ListAfterStep(st, a);
    match a
    case Advance(own) =>
      if own == id && id in st.calls {
        OwnKeepsSignal(st, id);
        if !st.calls[id].pc.Link? && id !in st.list {
          OwnStaysOff(st, id);
        }
      } else if own in st.calls {
        AdvanceOthers(st, own, id);
        OthersStayListed(st, own, id);
      }
    case Deliver(_, _, _) =>
      VisitsMoveNothing(st, a, id);
      VisitsKeepList(st, a);
      ListedIsLinked(st, id);
      if Step(st, a).calls[id] != st.calls[id] {
        DeliverySignals(st, a, id);
      }
    case WalkStep(_) =>
      VisitsMoveNothing(st, a, id);
      VisitsKeepList(st, a);
      ListedIsLinked(st, id);
      if Step(st, a).calls[id] != st.calls[id] {
        DeliverySignals(st, a, id);
      }
    case _ =>
      ListAfterRest(st, a);
      ListedIsLinked(st, id);
  }

  lemma ListedIsLinked(st: State, id: Id)
    requires ListOk(st)
    ensures id in st.list <==> id in st.calls && st.calls[id].Linked()
  {
  }

  lemma OthersStayListed(st: State, own: Id, id: Id)
    requires ListOk(st) && own in st.calls && id != own
    ensures id in AdvanceCall(st, own).list <==> id in st.list
  {
    hide AdvanceCall;
    ListAfterAdvance(st, own);
    AdvanceOthers(st, own, id);
    ListedIsLinked(st, id);
    ListedIsLinked(AdvanceCall(st, own), id);
  }

  lemma {:induction false} AlwaysHonest(acts: seq<Action>)
    ensures Honest(Exec(acts))
    decreases |acts|
  {
    hide Step, ListOk;
    if acts == [] {
      NobodyListed();
    } else {
      var pre, a := acts[..|acts| - 1], acts[|acts| - 1];
      AlwaysHonest(pre);
      ListAfterStep(Exec(pre), a);
      forall id | id in Exec(acts).calls
        ensures var c := Exec(acts).calls[id];
          && (c.pc.Link? ==> !c.signalled)
          && ((c.pc.Link? || id in Exec(acts).list) && c.sem > 0 ==> c.signalled)
      {
        HonestCall(Exec(pre), a, id);
      }
    }
  }

  lemma NobodyListed()
    ensures Honest(INIT)
  {
  }

  /** Newly on the list, a call is unsignalled. */
  lemma NewlyListed(st: State, a: Action, id: Id)
    requires Honest(st) && id !in st.list && id in Step(st, a).list && id in Step(st, a).calls
    ensures !Step(st, a).calls[id].signalled
  {
    hide AdvanceCall, DeliverTo, WalkOn, ListOk;
    match a
    case Advance(own) =>
      if own == id && id in st.calls {
        OwnKeepsSignal(st, id);
        if st.calls[id].pc.Link? {
          LinkedNext(st, id);
        } else {
          OwnStaysOff(st, id);
        }
      } else if own in st.calls {
        OthersStayListed(st, own, id);
        assert false;
      }
    case Deliver(_, _, _) =>
      VisitsKeepList(st, a);
      assert false;
    case WalkStep(_) =>
      VisitsKeepList(st, a);
      assert false;
    case _ =>
      ListAfterRest(st, a);
      assert false;
  }

  lemma LinkedNext(st: State, id: Id)
    requires id in st.calls && st.calls[id].pc.Link?
    ensures id in AdvanceCall(st, id).calls && !AdvanceCall(st, id).calls[id].pc.Link?
  {
  }

  /** A signal that appears in a step is given by that step, for a reason. */
  lemma StepHasReason(st: State, a: Action, id: Id)
    requires Honest(st) && id in st.list && id in st.calls && !st.calls[id].signalled
    requires id in Step(st, a).calls && Step(st, a).calls[id].signalled
    ensures exists s :: s in Step(st, a).socks && OnSocket(st, a, s) && ReadyFor(st.calls[id], Step(st, a).socks[s], s)
  {
    hide AdvanceCall, DeliverTo, WalkOn, ListOk, ReadyFor, OnSocket;
    ListedIsLinked(st, id);
    match a
    case Advance(own) =>
      if own == id {
        OwnKeepsSignal(st, id);
      } else if own in st.calls {
        AdvanceOthers(st, own, id);
      }
      assert false;
    case Deliver(_, _, _) => DeliverySignals(st, a, id);
    case WalkStep(_) => DeliverySignals(st, a, id);
    case _ =>
  }

  lemma ReasonStays(acts: seq<Action>, a: Action, id: Id)
    requires HasReason(acts, id) && id in Exec(acts + [a]).list
    ensures HasReason(acts + [a], id)
  {
    hide Exec, ReadyFor, OnSocket;
    var k, s :| 0 <= k < |acts| && Told(acts, k, id, s) && ListedSince(acts, k, id);
    var more := acts + [a];
    assert more[..k] == acts[..k] && more[..k + 1] == acts[..k + 1];
    assert Told(more, k, id, s);
    forall j | k <= j <= |more| ensures id in Exec(more[..j]).list {
      if j <= |acts| {
        assert more[..j] == acts[..j];
      } else {
        assert more[..j] == more;
      }
    }
  }

  /** Whoever is on the list and signalled has been told by a delivery, since it got on the list, that a socket of
      one of its sets is ready. */
  lemma {:induction false} SignalHasReason(acts: seq<Action>, id: Id)
    requires id in Exec(acts).list && id in Exec(acts).calls && Exec(acts).calls[id].signalled
    ensures HasReason(acts, id)
    decreases |acts|
  {
    hide Step, ReadyFor, OnSocket, Honest;
    if acts != [] {
      var pre, a := acts[..|acts| - 1], acts[|acts| - 1];
      var st := Exec(pre);
      AlwaysHonest(pre);
      assert pre + [a] == acts;
      if id !in st.list {
        NewlyListed(st, a, id);
      } else {
        HonestListed(st, id);
        if st.calls[id].signalled {
          SignalHasReason(pre, id);
          ReasonStays(pre, a, id);
        } else {
          StepHasReason(st, a, id);
          ReasonHere(pre, a, id);
        }
      }
    }
  }

  lemma HonestListed(st: State, id: Id)
    requires Honest(st) && id in st.list
    ensures id in st.calls
  {
  }

  lemma ReasonHere(pre: seq<Action>, a: Action, id: Id)
    requires var st, st' := Exec(pre), Step(Exec(pre), a);
      && id in st.list && id in st.calls && !st.calls[id].signalled && id in st'.list
      && exists s :: s in st'.socks && OnSocket(st, a, s) && ReadyFor(st.calls[id], st'.socks[s], s)
    ensures HasReason(pre + [a], id)
  {
    hide Exec, Step, ReadyFor, OnSocket;
    var st, st', acts := Exec(pre), Step(Exec(pre), a), pre + [a];
    var s :| s in st'.socks && OnSocket(st, a, s) && ReadyFor(st.calls[id], st'.socks[s], s);
    OneMoreStep(pre, a);
    assert acts[..|pre|] == pre && acts[..|pre| + 1] == acts;
    assert Told(acts, |pre|, id, s);
  }

  /** A call that may wait forever wakes up only after it has been told so. */
  lemma WakeHasReason(acts: seq<Action>, a: Action, id: Id)
    requires var st := Exec(acts); id in st.calls && st.calls[id].pc.Asleep? && st.calls[id].timeout.Forever?
    requires var st' := Exec(acts + [a]); id !in st'.calls || !st'.calls[id].pc.Asleep?
    ensures a == Wake(id) && HasReason(acts, id)
  {
    hide Exec, AdvanceCall, DeliverTo, WalkOn;
    OneMoreStep(acts, a);
    var st := Exec(acts);
    AlwaysHonest(acts);
    OnlyWakes(st, a, id);
    SignalHasReason(acts, id);
  }

  lemma OnlyWakes(st: State, a: Action, id: Id)
    requires Honest(st) && id in st.calls && st.calls[id].pc.Asleep? && st.calls[id].timeout.Forever?
    requires id !in Step(st, a).calls || !Step(st, a).calls[id].pc.Asleep?
    ensures a == Wake(id) && id in st.list && st.calls[id].signalled
  {
    hide AdvanceCall, DeliverTo, WalkOn, ListOk;
    ListedIsLinked(st, id);
    match a
    case Advance(own) =>
      if own == id {
        SleepsOn(st, id);
      } else if own in st.calls {
        AdvanceOthers(st, own, id);
      }
      assert false;
    case Deliver(_, _, _) =>
      VisitsKeepList(st, a);
      VisitsMoveNothing(st, a, id);
      assert false;
    case WalkStep(_) =>
      VisitsKeepList(st, a);
      VisitsMoveNothing(st, a, id);
      assert false;
    case _ =>
  }

  // ---------------------------------------------------------------- the semaphore

  predicate Early(c: Call) {
    c.pc.Link? || c.pc.Reg? || c.pc.Scan2? || c.pc.Asleep?
  }

  /** Up to its sleep the semaphore of a call has been posted once if the call is signalled, and not otherwise. */
  predicate Posted(c: Call) {
    Early(c) ==> c.sem == if c.signalled then 1 else 0
  }

  lemma EarlyBefore(st: State, id: Id)
    requires id in st.calls && id in AdvanceCall(st, id).calls
    requires Early(AdvanceCall(st, id).calls[id]) && !AdvanceCall(st, id).calls[id].pc.Link?
    ensures Early(st.calls[id])
  {
    hide Found, Without, Call.Watches;
  }

  lemma PostedAfter(st: State, a: Action, id: Id)
    requires ListOk(st) && id in st.calls && Posted(st.calls[id]) && id in Step(st, a).calls
    ensures Posted(Step(st, a).calls[id])
  {
    hide AdvanceCall, DeliverTo, WalkOn, ListOk;
    match a
    case Advance(own) =>
      if own == id {
        OwnKeepsSignal(st, id);
        if Early(AdvanceCall(st, id).calls[id]) && !AdvanceCall(st, id).calls[id].pc.Link? {
          EarlyBefore(st, id);
        }
      } else if own in st.calls {
        AdvanceOthers(st, own, id);
      }
    case Deliver(_, _, _) =>
      if Step(st, a).calls[id] != st.calls[id] {
        DeliverySignals(st, a, id);
      }
    case WalkStep(_) =>
      if Step(st, a).calls[id] != st.calls[id] {
        DeliverySignals(st, a, id);
      }
    case _ =>
  }

  lemma PostedAtFirst(st: State, a: Action, id: Id)
    requires id !in st.calls && id in Step(st, a).calls
    ensures Posted(Step(st, a).calls[id])
  {
    hide AdvanceCall, DeliverTo, WalkOn;
    match a
    case Advance(own) =>
      if own in st.calls {
        AdvanceOthers(st, own, id);
      }
    case Deliver(_, _, _) => VisitsMoveNothing(st, a, id);
    case WalkStep(_) => VisitsMoveNothing(st, a, id);
    case _ =>
  }

  lemma {:induction false} AlwaysPosted(acts: seq<Action>, id: Id)
    requires id in Exec(acts).calls
    ensures Posted(Exec(acts).calls[id])
    decreases |acts|
  {
    hide Step, Posted, ListOk;
    if acts != [] {
      var pre, a := acts[..|acts| - 1], acts[|acts| - 1];
      if id in Exec(pre).calls {
        AlwaysPosted(pre, id);
        AlwaysHonest(pre);
        PostedAfter(Exec(pre), a, id);
      } else {
        PostedAtFirst(Exec(pre), a, id);
      }
    }
  }

  /** Over every run: a sleeper can leave its semaphore at once exactly if it has been signalled. */
  lemma SignalledCanWake(acts: seq<Action>, id: Id)
    requires id in Exec(acts).calls && Exec(acts).calls[id].pc.Asleep?
    ensures var st := Exec(acts + [Wake(id)]);
      id in st.calls && (st.calls[id].pc.Asleep? <==> !Exec(acts).calls[id].signalled)
  {
    hide Exec;
    AlwaysPosted(acts, id);
    OneMoreStep(acts, Wake(id));
  }
}
