/** Data that a receiver has left over (`lastdata`).  sal_selscan calls a socket with such data readable, but the test
    of a delivery looks at the counters only, so a select that has gone to sleep is not told.  When that happens, over
    every run and without any bound on its length or its calls. */
module SalSelectLeftover {
  import opened SalSelect
  import opened SalSelectProof

  /** The call sleeps unsignalled on s, which it wants to read, and no counter calls s ready. */
  ghost predicate SleepsUntold(st: State, id: Id, s: int) {
    && id in st.calls && st.calls[id].pc.Asleep? && !st.calls[id].signalled
    && st.calls[id].Watches(s) && s in st.calls[id].rd
    && s in st.socks && !Test(st.calls[id], st.socks[s], s)
  }

  ghost predicate Looked(st: State, id: Id, s: int) {
    id in st.calls && st.calls[id].Checked(s) && s in st.calls[id].rd
  }

  /** Step k leaves data on s, and no later step takes it away. */
  ghost predicate LeavesData(acts: seq<Action>, k: nat, s: int) {
    && k < |acts| && acts[k] == Touch(s, true) && s in Exec(acts[..k]).socks
    && forall j :: k < j < |acts| ==> acts[j] != Touch(s, false)
  }

  /** Data has been left on s after the second scan of the call had looked at it. */
  ghost predicate LeftAfterScan(acts: seq<Action>, id: Id, s: int) {
    exists k :: 0 <= k < |acts| && LeavesData(acts, k, s) && Looked(Exec(acts[..k]), id, s)
  }

  // ---------------------------------------------------------------- single steps

  /** The second scan has counted nothing wrong, and registered sockets are open. */
  ghost predicate SoundCall(st: State, c: Call) {
    && (c.pc.Scan2? ==> c.nready >= 0)
    && (c.pc.Reg? || c.pc.Scan2? || c.pc.Asleep? ==> c.hi2 == c.hi)
    && forall s :: c.Registered(s) ==> s in st.socks
  }

  ghost predicate Sound(st: State) {
    forall id :: id in st.calls ==> SoundCall(st, st.calls[id])
  }

  lemma SocketsRemain(st: State, a: Action, s: int)
    requires s in st.socks
    ensures s in Step(st, a).socks
    ensures !a.Touch? || a.fd != s ==> Step(st, a).socks[s].lastdata == st.socks[s].lastdata
    ensures a.Touch? && a.fd == s ==> Step(st, a).socks[s].lastdata == a.left
  {
    hide Position, Without, Found, Test, Int16;
  }

  /** The call whose step it is. */
  ghost predicate SoundNext(st: State, id: Id)
    requires id in st.calls
  {
    var st' := AdvanceCall(st, id);
    id in st'.calls ==> SoundCall(st', st'.calls[id])
  }

  lemma SoundScan(st: State, id: Id)
    requires id in st.calls && SoundCall(st, st.calls[id])
    requires st.calls[id].pc.Scan1? || st.calls[id].pc.Scan2? || st.calls[id].pc.Scan3?
    ensures SoundNext(st, id)
  {
    hide ScanCount;
    var c := st.calls[id];
    assert c.pc.Scan2? ==> forall s :: c.Watches(s) ==> c.Registered(s);
  }

  lemma SoundJoin(st: State, id: Id)
    requires id in st.calls && SoundCall(st, st.calls[id])
    requires st.calls[id].pc.Link? || st.calls[id].pc.Reg?
    ensures SoundNext(st, id)
  {
    hide Found;
  }

  lemma SoundLeave(st: State, id: Id)
    requires id in st.calls && SoundCall(st, st.calls[id])
    requires st.calls[id].pc.Asleep? || st.calls[id].pc.Dereg? || st.calls[id].pc.Unlink?
    ensures SoundNext(st, id)
  {
    hide Found, Without;
  }

  lemma SoundOwn(st: State, id: Id)
    requires Sound(st) && id in st.calls
    ensures SoundNext(st, id)
  {
    hide SoundNext, SoundCall;
    match st.calls[id].pc
    case Scan1(_) => SoundScan(st, id);
    case Scan2(_) => SoundScan(st, id);
    case Scan3(_) => SoundScan(st, id);
    case Link => SoundJoin(st, id);
    case Reg(_) => SoundJoin(st, id);
    case Asleep => SoundLeave(st, id);
    case Dereg(_) => SoundLeave(st, id);
    case Unlink => SoundLeave(st, id);
  }

  /** A visit may signal a call, and moves it nowhere. */
  ghost predicate SamePlace(c: Call, c': Call) {
    c' == c.(signalled := c'.signalled, sem := c'.sem)
  }

  lemma VisitsMoveNothing(st: State, a: Action, id: Id)
    requires (a.Deliver? || a.WalkStep?) && id in Step(st, a).calls
    ensures id in st.calls && SamePlace(st.calls[id], Step(st, a).calls[id])
  {
    hide Position, Test, Bump;
  }

  lemma SoundElsewhere(st: State, st': State, c: Call, c': Call)
    requires SoundCall(st, c) && SamePlace(c, c') && forall s :: s in st.socks ==> s in st'.socks
    ensures SoundCall(st', c')
  {
    assert forall s :: c'.Registered(s) ==> c.Registered(s);
  }

  lemma SoundAfter(st: State, a: Action, id: Id)
    requires Sound(st) && id in Step(st, a).calls
    ensures SoundCall(Step(st, a), Step(st, a).calls[id])
  {
    hide AdvanceCall, DeliverTo, WalkOn, SoundCall;
    var st' := Step(st, a);
    forall s | s in st.socks ensures s in st'.socks {
      SocketsRemain(st, a, s);
    }
    match a
    case Advance(own) =>
      if own == id {
        if id in st.calls {
          SoundOwn(st, id);
        }
      } else if own in st.calls {
        AdvanceOthers(st, own, id);
        SoundElsewhere(st, st', st.calls[id], st.calls[id]);
      } else {
        SoundElsewhere(st, st', st.calls[id], st.calls[id]);
      }
    case Deliver(_, _, _) =>
      VisitsMoveNothing(st, a, id);
      SoundElsewhere(st, st', st.calls[id], st'.calls[id]);
    case WalkStep(_) =>
      VisitsMoveNothing(st, a, id);
      SoundElsewhere(st, st', st.calls[id], st'.calls[id]);
    case _ => SoundPlain(st, a, id);
  }

  lemma SoundPlain(st: State, a: Action, id: Id)
    requires Sound(st) && id in Step(st, a).calls && !a.Advance? && !a.Deliver? && !a.WalkStep?
    ensures SoundCall(Step(st, a), Step(st, a).calls[id])
  {
    assert id in st.calls ==> SoundCall(st, st.calls[id]);
  }

  lemma {:induction false} AlwaysSound(acts: seq<Action>)
    ensures Sound(Exec(acts))
    decreases |acts|
  {
    hide Step, SoundCall;
    if acts != [] {
      var pre, a := acts[..|acts| - 1], acts[|acts| - 1];
      AlwaysSound(pre);
      forall id | id in Exec(acts).calls ensures SoundCall(Exec(acts), Exec(acts).calls[id]) {
        SoundAfter(Exec(pre), a, id);
      }
    }
  }

  /** A socket newly looked at has no data left on it. */
  lemma NewlyLooked(st: State, a: Action, id: Id, s: int)
    requires Sound(st) && !Looked(st, id, s) && Looked(Step(st, a), id, s)
    ensures s in st.socks && !st.socks[s].lastdata && !a.Touch?
  {
    hide AdvanceCall, DeliverTo, WalkOn, SoundCall;
    match a
    case Advance(own) =>
      if own == id && id in st.calls {
        NewlyLookedOwn(st, id, s);
      } else if own in st.calls {
        AdvanceOthers(st, own, id);
        assert false;
      }
    case Deliver(_, _, _) =>
      VisitsMoveNothing(st, a, id);
      assert false;
    case WalkStep(_) =>
      VisitsMoveNothing(st, a, id);
      assert false;
    case _ =>
  }

  lemma NewlyLookedOwn(st: State, id: Id, s: int)
    requires Sound(st) && id in st.calls && !Looked(st, id, s) && Looked(AdvanceCall(st, id), id, s)
    ensures s in st.socks && !st.socks[s].lastdata
  {
    hide AdvanceCall, SoundCall, Looked;
    assert SoundCall(st, st.calls[id]);
    if st.calls[id].pc.Scan2? {
      NewlyScanned(st, id, s);
    } else {
      OnlyScansLook(st, id, s);
    }
  }

  lemma NewlyScanned(st: State, id: Id, s: int)
    requires id in st.calls && SoundCall(st, st.calls[id]) && st.calls[id].pc.Scan2?
    requires !Looked(st, id, s) && Looked(AdvanceCall(st, id), id, s)
    ensures s in st.socks && !st.socks[s].lastdata
  {
    var c := st.calls[id];
    assert c.nready == 0 && s == c.pc.i;
    assert c.Registered(s);
  }

  lemma OnlyScansLook(st: State, id: Id, s: int)
    requires id in st.calls && !st.calls[id].pc.Scan2? && !Looked(st, id, s)
    ensures !Looked(AdvanceCall(st, id), id, s)
  {
    hide Without, Found, Call.Registered;
    var c := st.calls[id];
    if c.pc.Scan1? || c.pc.Scan3? || c.pc.Link? {
      StaysOffScan(st, id);
    } else if c.pc.Dereg? || c.pc.Unlink? {
      LeavesScan(st, id);
    }
  }

  lemma StaysOffScan(st: State, id: Id)
    requires id in st.calls && (st.calls[id].pc.Scan1? || st.calls[id].pc.Scan3? || st.calls[id].pc.Link?)
    ensures var st' := AdvanceCall(st, id);
      id in st'.calls ==> !st'.calls[id].pc.Scan2? && !st'.calls[id].pc.Asleep?
  {
    hide Found, Call.Watches;
  }

  lemma LeavesScan(st: State, id: Id)
    requires id in st.calls && (st.calls[id].pc.Dereg? || st.calls[id].pc.Unlink?)
    ensures var st' := AdvanceCall(st, id);
      id in st'.calls ==> !st'.calls[id].pc.Scan2? && !st'.calls[id].pc.Asleep?
  {
    hide Found, Without, Call.Watches;
  }

  // ---------------------------------------------------------------- runs

  /** Data left and not taken away is still there. */
  lemma {:induction false} StillThere(acts: seq<Action>, k: nat, s: int)
    requires LeavesData(acts, k, s)
    ensures s in Exec(acts).socks && Exec(acts).socks[s].lastdata
    decreases |acts|
  {
    hide Step;
    var pre, a := acts[..|acts| - 1], acts[|acts| - 1];
    if k < |acts| - 1 {
      assert pre[..k] == acts[..k];
      assert forall j :: k < j < |pre| ==> pre[j] == acts[j];
      StillThere(pre, k, s);
    } else {
      assert acts[..k] == pre;
    }
    SocketsRemain(Exec(pre), a, s);
  }

  /** Data on a socket that has been looked at was left there afterwards. */
  lemma {:induction false} LeftLater(acts: seq<Action>, id: Id, s: int)
    requires Looked(Exec(acts), id, s) && s in Exec(acts).socks && Exec(acts).socks[s].lastdata
    ensures LeftAfterScan(acts, id, s)
    decreases |acts|
  {
    hide Step, Looked;
    if acts != [] {
      var pre, a := acts[..|acts| - 1], acts[|acts| - 1];
      var st := Exec(pre);
      AlwaysSound(pre);
      if !Looked(st, id, s) {
        NewlyLooked(st, a, id, s);
        SocketsRemain(st, a, s);
      } else {
        LookedIsOpen(st, id, s);
        SocketsRemain(st, a, s);
        if a == Touch(s, true) {
          assert acts[..|acts| - 1] == pre;
          assert LeavesData(acts, |acts| - 1, s);
        } else {
          LeftLater(pre, id, s);
          LeftStays(pre, a, id, s);
          assert pre + [a] == acts;
        }
      }
    } else {
      NoneLooked(id, s);
    }
  }

  lemma NoneLooked(id: Id, s: int)
    ensures !Looked(Exec([]), id, s)
  {
  }

  lemma LookedIsOpen(st: State, id: Id, s: int)
    requires Sound(st) && Looked(st, id, s)
    ensures s in st.socks
  {
    assert SoundCall(st, st.calls[id]) && st.calls[id].Registered(s);
  }

  lemma LeftStays(acts: seq<Action>, a: Action, id: Id, s: int)
    requires LeftAfterScan(acts, id, s) && a != Touch(s, false)
    ensures LeftAfterScan(acts + [a], id, s)
  {
    hide Exec, Looked;
    var k :| 0 <= k < |acts| && LeavesData(acts, k, s) && Looked(Exec(acts[..k]), id, s);
    assert (acts + [a])[..k] == acts[..k];
    assert LeavesData(acts + [a], k, s);
  }

  /** A call sleeps untold on a socket that sal_selscan would call readable if and only if data was left on the socket
      after the second scan of the call had looked at it. */
  lemma LeftoverExactly(acts: seq<Action>, id: Id, s: int)
    requires SleepsUntold(Exec(acts), id, s)
    ensures ScanCount(Exec(acts).calls[id], Exec(acts).socks[s], s) > 0 <==> LeftAfterScan(acts, id, s)
  {
    hide Exec;
    var st := Exec(acts);
    assert Looked(st, id, s);
    if st.socks[s].lastdata {
      LeftLater(acts, id, s);
    }
    if LeftAfterScan(acts, id, s) {
      var k :| 0 <= k < |acts| && LeavesData(acts, k, s) && Looked(Exec(acts[..k]), id, s);
      StillThere(acts, k, s);
    }
  }

  /** And it does happen: after every run with such a sleeper, data left on the socket makes it readable for a scan,
      wakes nobody and starts no delivery. */
  lemma LeftoverWakesNobody(acts: seq<Action>, id: Id, s: int)
    requires SleepsUntold(Exec(acts), id, s)
    ensures var st := Exec(acts + [Touch(s, true)]);
      && SleepsUntold(st, id, s) && ScanCount(st.calls[id], st.socks[s], s) > 0
      && st.calls == Exec(acts).calls && st.walks == Exec(acts).walks
  {
    hide Exec;
    var more := acts + [Touch(s, true)];
    assert more[..|more| - 1] == acts;
    OneMoreStep(acts, Touch(s, true));
  }

  lemma OneMoreStep(acts: seq<Action>, a: Action)
    ensures Exec(acts + [a]) == Step(Exec(acts), a)
  {
    assert (acts + [a])[..|acts|] == acts;
  }
}
