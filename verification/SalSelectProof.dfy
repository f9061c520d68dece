/** Every step of the select/event protocol keeps the invariant; what follows for whole runs. */
module SalSelectProof {
  import opened SalSelect

  // ---------------------------------------------------------------- counting

  /** Sets that agree except on x differ in size by what they do with x. */
  lemma SizeUpTo<T>(a: set<T>, b: set<T>, x: T)
    requires a - {x} == b - {x}
    ensures |b| == |a| - (if x in a then 1 else 0) + (if x in b then 1 else 0)
  {
    assert x in a ==> a == (a - {x}) + {x};
    assert x !in a ==> a == a - {x};
    assert x in b ==> b == (b - {x}) + {x};
    assert x !in b ==> b == b - {x};
  }

  /** Changing one call changes the watchers of s by at most that call. */
  lemma WatchersOfOthers(st: State, st': State, id: Id, s: int)
    requires forall j :: j != id ==> (j in st.calls <==> j in st'.calls)
    requires forall j :: j != id && j in st.calls ==> st.calls[j].Registered(s) == st'.calls[j].Registered(s)
    ensures |Watchers(st', s)| == |Watchers(st, s)|
                                  - (if id in Watchers(st, s) then 1 else 0)
                                  + (if id in Watchers(st', s) then 1 else 0)
  {
    forall j | j != id ensures j in Watchers(st, s) <==> j in Watchers(st', s) {
      assert j in Watchers(st, s) <==> j in st.calls && st.calls[j].Registered(s);
    }
    assert Watchers(st, s) - {id} == Watchers(st', s) - {id};
    SizeUpTo(Watchers(st, s), Watchers(st', s), id);
  }

  // ---------------------------------------------------------------- steps of one call

  ghost predicate SameRegistrations(st: State, id: Id, c': Call) {
    forall s :: c'.Registered(s) <==> (id in st.calls && st.calls[id].Registered(s))
  }

  ghost predicate ChecksNoMore(st: State, id: Id, c': Call) {
    forall s :: !c'.signalled && c'.Checked(s) && s in st.socks && Test(c', st.socks[s], s) ==>
      id in st.calls && !st.calls[id].signalled && st.calls[id].Checked(s) && Test(st.calls[id], st.socks[s], s)
  }

  /** The call may be rewritten without joining or leaving the list or any count, and without
      taking on a check it has not made. */
  ghost predicate Quiet(st: State, id: Id, c': Call) {
    && CallOk(c')
    && (c'.Linked() <==> (id in st.calls && st.calls[id].Linked()))
    && SameRegistrations(st, id, c')
    && ChecksNoMore(st, id, c')
  }

  lemma PutKeeps(st: State, id: Id, c': Call)
    requires Inv(st) && Quiet(st, id, c')
    ensures Inv(Put(st, id, c'))
  {
    var st' := Put(st, id, c');
    forall s | s in st'.socks ensures st'.socks[s].waiting == |Watchers(st', s)| {
      WatchersOfOthers(st, st', id, s);
    }
    assert CallsOk(st');
    forall j, s | j in st'.calls && !st'.calls[j].signalled && st'.calls[j].Checked(s) &&
                  s in st'.socks && Test(st'.calls[j], st'.socks[s], s)
      ensures HasWalk(st', s, j)
    {
      HasWalkFrame(st, st', s, j);
    }
  }

  /** A pending walk stays pending when only calls or sockets change. */
  lemma HasWalkFrame(st: State, st': State, s: int, id: Id)
    requires HasWalk(st, s, id)
    requires st'.walks == st.walks && st'.list == st.list && st'.gen == st.gen
    ensures HasWalk(st', s, id)
  {
    var w :| w in st.walks && st.walks[w].s == s && Ahead(st, w, id);
    assert Ahead(st', w, id);
  }

  /** Leaving sal_select when not on the list. */
  lemma ReturnKeeps(st: State, id: Id)
    requires Inv(st) && id in st.calls && !st.calls[id].Linked()
    ensures Inv(Return(st, id))
  {
    var st' := Return(st, id);
    forall s | s in st'.socks ensures st'.socks[s].waiting == |Watchers(st', s)| {
      WatchersOfOthers(st, st', id, s);
    }
    forall j, s | j in st'.calls && !st'.calls[j].signalled && st'.calls[j].Checked(s) &&
                  s in st'.socks && Test(st'.calls[j], st'.socks[s], s)
      ensures HasWalk(st', s, j)
    {
      HasWalkFrame(st, st', s, j);
    }
  }

  /** After a list change every walk will restart, so whatever was pending stays pending. */
  lemma HasWalkAfterChange(st: State, st': State, s: int, id: Id)
    requires HasWalk(st, s, id) && WalksOk(st)
    requires st'.walks == st.walks && st'.gen == st.gen + 1
    ensures HasWalk(st', s, id)
  {
    var w :| w in st.walks && st.walks[w].s == s && Ahead(st, w, id);
    assert WalkOk(st, st.walks[w]);
    assert Ahead(st', w, id);
  }

  lemma LinkKeeps(st: State, id: Id)
    requires Inv(st) && id in st.calls && st.calls[id].pc.Link?
    requires st.calls[id].sem == 0 && !st.calls[id].signalled
    ensures Inv(AdvanceCall(st, id))
  {
    var st' := AdvanceCall(st, id);
    assert id !in st.list;
    forall s | s in st'.socks ensures st'.socks[s].waiting == |Watchers(st', s)| {
      WatchersOfOthers(st, st', id, s);
    }
    WalksAfterChange(st, st');
    forall j, s | j in st'.calls && !st'.calls[j].signalled && st'.calls[j].Checked(s) &&
                  s in st'.socks && Test(st'.calls[j], st'.socks[s], s)
      ensures HasWalk(st', s, j)
    {
      HasWalkAfterChange(st, st', s, j);
    }
  }

  lemma WithoutElements<T>(list: seq<T>, id: T)
    requires forall a, b :: 0 <= a < b < |list| ==> list[a] != list[b]
    ensures forall j :: j in Without(list, id) <==> j in list && j != id
    ensures forall a, b :: 0 <= a < b < |Without(list, id)| ==> Without(list, id)[a] != Without(list, id)[b]
  {
    if list != [] && list[0] != id {
      WithoutElements(list[1..], id);
      assert list == [list[0]] + list[1..];
      assert list[0] !in list[1..];
      assert list[0] !in Without(list[1..], id);
    }
  }

  lemma UnlinkList(st: State, id: Id)
    requires ListOk(st) && id in st.calls && st.calls[id].pc.Unlink?
    ensures ListOk(AdvanceCall(st, id))
    ensures forall j :: j != id && j in st.list ==> j in AdvanceCall(st, id).list
  {
    WithoutElements(st.list, id);
  }

  lemma UnlinkCounts(st: State, id: Id)
    requires Counted(st) && id in st.calls && st.calls[id].pc.Unlink?
    ensures Counted(AdvanceCall(st, id))
  {
    var st' := AdvanceCall(st, id);
    forall s | s in st'.socks ensures st'.socks[s].waiting == |Watchers(st', s)| {
      WatchersOfOthers(st, st', id, s);
    }
  }

  lemma WalksAfterChange(st: State, st': State)
    requires WalksOk(st) && st'.walks == st.walks && st'.socks == st.socks
    requires st'.gen == st.gen + 1 && st'.ctr == (st.ctr + 1) % CTR_MODULUS
    ensures WalksOk(st')
  {
    forall w | w in st'.walks ensures WalkOk(st', st'.walks[w]) {
      assert WalkOk(st, st.walks[w]);
    }
  }

  lemma WalksFrame(st: State, st': State)
    requires WalksOk(st) && st'.walks == st.walks && st'.socks.Keys >= st.socks.Keys
    requires st'.gen == st.gen && st'.ctr == st.ctr && st'.list == st.list
    ensures WalksOk(st')
  {
    forall w | w in st'.walks ensures WalkOk(st', st'.walks[w]) {
      assert WalkOk(st, st.walks[w]);
    }
  }

  lemma UnlinkKeeps(st: State, id: Id)
    requires Inv(st) && id in st.calls && st.calls[id].pc.Unlink?
    ensures Inv(AdvanceCall(st, id))
  {
    var st' := AdvanceCall(st, id);
    UnlinkList(st, id);
    UnlinkCounts(st, id);
    WalksAfterChange(st, st');
    forall j, s | j in st'.calls && !st'.calls[j].signalled && st'.calls[j].Checked(s) &&
                  s in st'.socks && Test(st'.calls[j], st'.socks[s], s)
      ensures HasWalk(st', s, j)
    {
      HasWalkAfterChange(st, st', s, j);
    }
  }

  /** Adding one to select_waiting: the only place where the uint8_t could wrap. */
  lemma RegisterCounts(st: State, id: Id)
    requires Counted(st) && id in st.calls && st.calls[id].pc.Reg?
    requires st.calls[id].Watches(st.calls[id].pc.i) && st.calls[id].pc.i in st.socks
    requires |Watchers(AdvanceCall(st, id), st.calls[id].pc.i)| < WAITING_MODULUS
    ensures Counted(AdvanceCall(st, id))
  {
    var c := st.calls[id];
    var st' := AdvanceCall(st, id);
    forall s | s in st'.socks ensures st'.socks[s].waiting == |Watchers(st', s)| {
      WatchersOfOthers(st, st', id, s);
      assert id in Watchers(st', s) <==> c.Watches(s) && s < c.pc.i + 1;
      assert id in Watchers(st, s) <==> c.Watches(s) && s < c.pc.i;
    }
  }

  lemma RegisterKeeps(st: State, id: Id)
    requires Inv(st) && id in st.calls && st.calls[id].pc.Reg?
    requires st.calls[id].Watches(st.calls[id].pc.i) && st.calls[id].pc.i in st.socks
    requires |Watchers(AdvanceCall(st, id), st.calls[id].pc.i)| < WAITING_MODULUS
    ensures Inv(AdvanceCall(st, id))
  {
    var c := st.calls[id];
    var st' := AdvanceCall(st, id);
    RegisterCounts(st, id);
    assert CallsOk(st');
    WalksFrame(st, st');
    forall j, s | j in st'.calls && !st'.calls[j].signalled && st'.calls[j].Checked(s) &&
                  s in st'.socks && Test(st'.calls[j], st'.socks[s], s)
      ensures HasWalk(st', s, j)
    {
      HasWalkFrame(st, st', s, j);
    }
  }

  lemma DeregisterCounts(st: State, id: Id)
    requires Counted(st) && id in st.calls && st.calls[id].pc.Dereg? && st.calls[id].pc.i < st.calls[id].hi2
    requires st.calls[id].Watches(st.calls[id].pc.i) && st.calls[id].pc.i in st.socks
    ensures st.socks[st.calls[id].pc.i].waiting > 0
    ensures Counted(AdvanceCall(st, id))
  {
    var c := st.calls[id];
    var st' := AdvanceCall(st, id);
    assert id in Watchers(st, c.pc.i);
    forall s | s in st'.socks ensures st'.socks[s].waiting == |Watchers(st', s)| {
      WatchersOfOthers(st, st', id, s);
      assert id in Watchers(st', s) <==> c.Watches(s) && c.pc.i + 1 <= s < c.hi2;
      assert id in Watchers(st, s) <==> c.Watches(s) && c.pc.i <= s < c.hi2;
    }
  }

  lemma DeregisterKeeps(st: State, id: Id)
    requires Inv(st) && id in st.calls && st.calls[id].pc.Dereg? && st.calls[id].pc.i < st.calls[id].hi2
    requires st.calls[id].Watches(st.calls[id].pc.i)
    ensures st.calls[id].pc.i in st.socks && st.socks[st.calls[id].pc.i].waiting > 0
    ensures Inv(AdvanceCall(st, id))
  {
    var c := st.calls[id];
    assert c.Registered(c.pc.i);
    var st' := AdvanceCall(st, id);
    DeregisterCounts(st, id);
    WalksFrame(st, st');
    forall j, s | j in st'.calls && !st'.calls[j].signalled && st'.calls[j].Checked(s) &&
                  s in st'.socks && Test(st'.calls[j], st'.socks[s], s)
      ensures HasWalk(st', s, j)
    {
      HasWalkFrame(st, st', s, j);
    }
  }

  /** The steps that only rewrite the call itself. */
  ghost predicate Local(st: State, id: Id)
    requires id in st.calls
  {
    var c := st.calls[id];
    match c.pc
    case Scan1(i) => i < c.hi || (c.nready == 0 && !c.timeout.Poll?)
    case Reg(i) => i >= c.hi || !c.Watches(i) || i !in st.socks
    case Scan2(_) => true
    case Dereg(i) => i >= c.hi2 || !c.Watches(i)
    case Scan3(i) => i < c.hi
    case _ => false
  }

  /** They are quiet; in the second scan because what it passes unready only an event can make ready. */
  lemma LocalIsQuiet(st: State, id: Id) returns (c': Call)
    requires id in st.calls && CallOk(st.calls[id]) && Local(st, id)
    ensures Quiet(st, id, c') && AdvanceCall(st, id) == Put(st, id, c')
  {
    c' := AdvanceCall(st, id).calls[id];
  }

  lemma LocalKeeps(st: State, id: Id)
    requires Inv(st) && id in st.calls && Local(st, id)
    ensures Inv(AdvanceCall(st, id))
  {
    var c' := LocalIsQuiet(st, id);
    PutKeeps(st, id, c');
  }

  lemma LeaveKeeps(st: State, id: Id)
    requires Inv(st) && id in st.calls && (st.calls[id].pc.Scan1? || st.calls[id].pc.Scan3?) && !Local(st, id)
    ensures Inv(AdvanceCall(st, id))
  {
    ReturnKeeps(st, id);
  }

  /** A step of one call leaves the others alone. */
  lemma AdvanceOthers(st: State, id: Id, other: Id)
    requires id in st.calls && other != id
    ensures var st' := AdvanceCall(st, id);
      (other in st'.calls <==> other in st.calls) && (other in st.calls ==> st'.calls[other] == st.calls[other])
  {
    hide Without, Found, Call.Watches;
  }

  /** One Advance of a call. */
  lemma AdvanceKeeps(st: State, id: Id)
    requires Inv(st) && id in st.calls
    requires forall s | s in st.socks :: |Watchers(AdvanceCall(st, id), s)| < WAITING_MODULUS
    ensures Inv(AdvanceCall(st, id))
  {
    var pc := st.calls[id].pc;
    if Local(st, id) {
      LocalKeeps(st, id);
    } else if pc.Scan1? || pc.Scan3? {
      LeaveKeeps(st, id);
    } else if pc.Link? {
      assert CallOk(st.calls[id]);
      LinkKeeps(st, id);
    } else if pc.Reg? {
      RegisterKeeps(st, id);
    } else if pc.Dereg? {
      DeregisterKeeps(st, id);
    } else if pc.Unlink? {
      UnlinkKeeps(st, id);
    }
  }

  // ---------------------------------------------------------------- steps of a delivery

  /** A state in which only the counters of s may be newly ready: what a delivery on s sees. */
  ghost predicate CoveredBut(st: State, s: int, rest: set<Id>) {
    forall id, t ::
      id in st.calls && !st.calls[id].signalled && st.calls[id].Checked(t) &&
      t in st.socks && Test(st.calls[id], st.socks[t], t) && !(t == s && id in rest)
      ==> HasWalk(st, t, id)
  }

  lemma VisitCounts(st: State, w: Id, s: int, at: Id)
    requires Counted(st) && s in st.socks && at in st.calls
    ensures Counted(Visit(st, w, s, at))
  {
    var st' := Visit(st, w, s, at);
    forall t | t in st'.socks ensures st'.socks[t].waiting == |Watchers(st', t)| {
      WatchersOfOthers(st, st', at, t);
    }
  }

  lemma VisitWalks(st: State, w: Id, s: int, n: nat)
    requires ListOk(st) && WalksOk(st) && s in st.socks && n < |st.list| && st.list[n] in st.calls
    ensures WalksOk(Visit(st, w, s, st.list[n]))
  {
    hide Test;
    var st' := Visit(st, w, s, st.list[n]);
    forall v | v in st'.walks ensures WalkOk(st', st'.walks[v]) {
      assert v != w ==> WalkOk(st, st.walks[v]);
    }
  }

  /** Whom the walk w now owes a visit. */
  lemma VisitCovers(st: State, w: Id, s: int, n: nat, id: Id, t: int)
    requires ListOk(st) && s in st.socks && n < |st.list| && st.list[n] in st.calls
    requires CoveredBut(st.(walks := st.walks - {w}), s, set k | n <= k < |st.list| :: st.list[k])
    requires var st' := Visit(st, w, s, st.list[n]);
      id in st'.calls && !st'.calls[id].signalled && st'.calls[id].Checked(t) && t in st'.socks
      && Test(st'.calls[id], st'.socks[t], t)
    ensures HasWalk(Visit(st, w, s, st.list[n]), t, id)
  {
    var at := st.list[n];
    var st' := Visit(st, w, s, at);
    var off := st.(walks := st.walks - {w});
    if t == s && id in set k | n <= k < |st.list| :: st.list[k] {
      var k :| n <= k < |st.list| && st.list[k] == id;
      assert k != n;
      assert st'.list[n] == st'.walks[w].at && st'.list[k] == id;
      assert Ahead(st', w, id);
    } else {
      assert HasWalk(off, t, id);
      var v :| v in off.walks && off.walks[v].s == t && Ahead(off, v, id);
      assert Ahead(st', v, id);
    }
  }

  lemma VisitCalls(st: State, w: Id, s: int, n: nat)
    requires ListOk(st) && CallsOk(st) && s in st.socks && n < |st.list|
    ensures st.list[n] in st.calls
    ensures var st' := Visit(st, w, s, st.list[n]); ListOk(st') && CallsOk(st')
  {
    hide Test;
    assert st.list[n] in st.list;
  }

  lemma VisitTells(st: State, w: Id, s: int, at: Id)
    requires s in st.socks && at in st.calls
    ensures at in Visit(st, w, s, at).calls
    ensures var c, k := st.calls[at], st.socks[s];
      Visit(st, w, s, at).calls[at].signalled <==>
        || c.signalled || (k.rcvevent > 0 && s in c.rd) || (k.sendevent != 0 && s in c.wr)
        || (k.errevent != 0 && s in c.ex)
  {
  }

  /** Visiting node n of the list with a walk that owes a visit to nobody before n. */
  lemma VisitKeeps(st: State, w: Id, s: int, n: nat)
    requires ListOk(st) && CallsOk(st) && WalksOk(st) && Counted(st) && s in st.socks && n < |st.list|
    requires w in st.walks ==> st.walks[w].s == s
    requires CoveredBut(st.(walks := st.walks - {w}), s, set k | n <= k < |st.list| :: st.list[k])
    ensures Inv(Visit(st, w, s, st.list[n]))
    ensures var c, k := st.calls[st.list[n]], st.socks[s];
      Visit(st, w, s, st.list[n]).calls[st.list[n]].signalled <==>
        || c.signalled || (k.rcvevent > 0 && s in c.rd) || (k.sendevent != 0 && s in c.wr)
        || (k.errevent != 0 && s in c.ex)
  {
    hide CoveredBut, HasWalk, Test, ListOk, CallsOk, WalksOk, Counted, Visit, Call.Checked;
    var at := st.list[n];
    VisitCalls(st, w, s, n);
    VisitTells(st, w, s, at);
    VisitCounts(st, w, s, at);
    VisitWalks(st, w, s, n);
    var st' := Visit(st, w, s, at);
    forall id, t | id in st'.calls && !st'.calls[id].signalled && st'.calls[id].Checked(t) &&
                   t in st'.socks && Test(st'.calls[id], st'.socks[t], t)
      ensures HasWalk(st', t, id)
    {
      VisitCovers(st, w, s, n, id, t);
    }
  }

  lemma VisitHeadKeeps(st: State, w: Id, s: int)
    requires ListOk(st) && CallsOk(st) && WalksOk(st) && Counted(st) && s in st.socks
    requires w in st.walks ==> st.walks[w].s == s
    requires CoveredBut(st.(walks := st.walks - {w}), s, set id | id in st.calls)
    ensures Inv(VisitHead(st, w, s))
  {
    var off := st.(walks := st.walks - {w});
    if st.list != [] {
      assert st.list[0] in st.list;
      forall id, t | id in off.calls && !off.calls[id].signalled && off.calls[id].Checked(t) &&
                     t in off.socks && Test(off.calls[id], off.socks[t], t) &&
                     !(t == s && id in set k | 0 <= k < |st.list| :: st.list[k])
        ensures HasWalk(off, t, id)
      {
        assert st.calls[id].Linked();
        assert id in st.list;
      }
      VisitKeeps(st, w, s, 0);
    } else {
      forall v | v in off.walks ensures WalkOk(off, off.walks[v]) {
        assert WalkOk(st, st.walks[v]);
      }
      forall t | t in off.socks ensures off.socks[t].waiting == |Watchers(off, t)| {
        assert Watchers(off, t) == Watchers(st, t);
      }
      forall id | id in st.calls ensures !st.calls[id].Linked() {
        assert id !in st.list;
      }
      assert Covered(off);
    }
  }

  /** The event itself: a counter of fd moves, and the walk starts unless nobody is counted. */
  lemma DeliverKeeps(st: State, w: Id, fd: int, evt: Event)
    requires Inv(st) && fd in st.socks && w !in st.walks
    ensures Inv(DeliverTo(st, w, fd, evt))
  {
    var st' := st.(socks := st.socks[fd := Bump(st.socks[fd], evt)]);
    forall t | t in st'.socks ensures st'.socks[t].waiting == |Watchers(st', t)| {
      assert Watchers(st', t) == Watchers(st, t);
    }
    forall v | v in st'.walks ensures WalkOk(st', st'.walks[v]) {
      assert WalkOk(st, st.walks[v]);
    }
    assert st'.walks - {w} == st'.walks;
    assert st'.(walks := st'.walks - {w}) == st';
    forall id, t | id in st'.calls && !st'.calls[id].signalled && st'.calls[id].Checked(t) &&
                   t in st'.socks && Test(st'.calls[id], st'.socks[t], t) && t != fd
      ensures HasWalk(st', t, id)
    {
      HasWalkFrame(st, st', t, id);
    }
    if st'.socks[fd].waiting == 0 {
      assert Watchers(st', fd) == {};
      forall id | id in st'.calls ensures !st'.calls[id].Checked(fd) {
        assert id !in Watchers(st', fd);
      }
    } else {
      VisitHeadKeeps(st', w, fd);
    }
  }

  /** Taking walk w away leaves covered whatever w did not owe. */
  lemma CoveredWithout(st: State, w: Id, rest: set<Id>)
    requires Covered(st) && w in st.walks
    requires forall id :: Ahead(st, w, id) && id in st.calls && st.calls[id].Linked() ==> id in rest
    ensures CoveredBut(st.(walks := st.walks - {w}), st.walks[w].s, rest)
  {
    var off := st.(walks := st.walks - {w});
    forall id, t | id in off.calls && !off.calls[id].signalled && off.calls[id].Checked(t) &&
                   t in off.socks && Test(off.calls[id], off.socks[t], t) && !(t == st.walks[w].s && id in rest)
      ensures HasWalk(off, t, id)
    {
      var v :| v in st.walks && st.walks[v].s == t && Ahead(st, v, id);
      assert v != w;
      assert Ahead(off, v, id);
    }
  }

  /** What a walk at an unmoved list still owes: the nodes behind its own. */
  lemma OwesTheRest(st: State, w: Id, id: Id)
    requires ListOk(st) && w in st.walks && st.walks[w].gen == st.gen && st.walks[w].at in st.list && Ahead(st, w, id)
    ensures id in set j | Position(st.list, st.walks[w].at) + 1 <= j < |st.list| :: st.list[j]
  {
    hide Position;
    var a, b :| 0 <= a < b < |st.list| && st.list[a] == st.walks[w].at && st.list[b] == id;
    assert a == Position(st.list, st.walks[w].at);
  }

  /** Going on: an unmoved counter means an unmoved list. */
  lemma WalkOnKeeps(st: State, w: Id)
    requires Inv(st) && w in st.walks && st.gen - st.walks[w].gen < CTR_MODULUS
    ensures st.walks[w].s in st.socks
    ensures st.walks[w].seen == st.ctr ==> st.walks[w].at in st.list
    ensures Inv(WalkOn(st, w))
  {
    hide Position, Covered, CoveredBut, Counted, Ahead, VisitHead, Visit;
    var k := st.walks[w];
    assert WalkOk(st, k);
    if k.seen != st.ctr {
      CoveredWithout(st, w, set id | id in st.calls);
      VisitHeadKeeps(st, w, k.s);
    } else {
      SameGeneration(st, k);
      var p := Position(st.list, k.at);
      var rest := set j | p + 1 <= j < |st.list| :: st.list[j];
      forall id | Ahead(st, w, id) ensures id in rest {
        OwesTheRest(st, w, id);
      }
      CoveredWithout(st, w, rest);
      if p + 1 < |st.list| {
        assert st.list[p + 1] in st.list;
        VisitKeeps(st, w, k.s, p + 1);
      } else {
        WalkEnds(st, w);
      }
    }
  }

  lemma SameGeneration(st: State, k: Walk)
    requires WalkOk(st, k) && st.ctr == st.gen % CTR_MODULUS && k.seen == st.ctr && st.gen - k.gen < CTR_MODULUS
    ensures k.gen == st.gen && k.at in st.list
  {
    SameResidue(k.gen, st.gen);
  }

  lemma WalkEnds(st: State, w: Id)
    requires Inv(st) && w in st.walks
    requires CoveredBut(st.(walks := st.walks - {w}), st.walks[w].s, {})
    ensures Inv(st.(walks := st.walks - {w}))
  {
    var off := st.(walks := st.walks - {w});
    forall v | v in off.walks ensures WalkOk(off, off.walks[v]) {
      assert WalkOk(st, st.walks[v]);
    }
    forall t | t in off.socks ensures off.socks[t].waiting == |Watchers(off, t)| {
      assert Watchers(off, t) == Watchers(st, t);
    }
  }

  // ---------------------------------------------------------------- sockets

  /** A socket is opened, or lastdata of an open one changes: no counter becomes ready. */
  lemma SocketKeeps(st: State, fd: int, k: Sock)
    requires Inv(st)
    requires if fd in st.socks then exists left :: k == st.socks[fd].(lastdata := left) else k.waiting == 0
    ensures Inv(st.(socks := st.socks[fd := k]))
  {
    var st' := st.(socks := st.socks[fd := k]);
    forall t | t in st'.socks ensures st'.socks[t].waiting == |Watchers(st', t)| {
      assert Watchers(st', t) == Watchers(st, t);
      if t !in st.socks {
        assert Watchers(st, t) == {};
      }
    }
    forall v | v in st'.walks ensures WalkOk(st', st'.walks[v]) {
      assert WalkOk(st, st.walks[v]);
    }
    forall id, t | id in st'.calls && !st'.calls[id].signalled && st'.calls[id].Checked(t) &&
                   t in st'.socks && Test(st'.calls[id], st'.socks[t], t)
      ensures HasWalk(st', t, id)
    {
      CheckedIsOpen(st, id, t);
      HasWalkFrame(st, st', t, id);
    }
  }

  lemma CheckedIsOpen(st: State, id: Id, t: int)
    requires CallsOk(st) && id in st.calls && st.calls[id].Checked(t)
    ensures t in st.socks
  {
    assert st.calls[id].Registered(t);
  }

  lemma BeginIsQuiet(st: State, id: Id, c: Call)
    requires id !in st.calls && c.pc.Scan1?
    ensures Quiet(st, id, c)
  {
  }

  lemma RousedIsQuiet(st: State, id: Id, c': Call)
    requires id in st.calls && CallOk(st.calls[id]) && st.calls[id].pc.Asleep?
    requires exists sem, out :: c' == st.calls[id].(pc := Dereg(st.calls[id].lo), sem := sem, timedOut := out)
    ensures Quiet(st, id, c')
  {
  }

  lemma RousedKeeps(st: State, id: Id, sem: nat, out: bool)
    requires Inv(st) && id in st.calls && st.calls[id].pc.Asleep?
    ensures Inv(Put(st, id, st.calls[id].(pc := Dereg(st.calls[id].lo), sem := sem, timedOut := out)))
  {
    var c := st.calls[id];
    var c' := c.(pc := Dereg(c.lo), sem := sem, timedOut := out);
    assert CallOk(c);
    RousedIsQuiet(st, id, c');
    PutKeeps(st, id, c');
  }

  // ---------------------------------------------------------------- runs

  ghost predicate WithinLimits(st: State) {
    Bounded(st, WAITING_MODULUS - 1, CTR_MODULUS - 1)
  }

  /** Every step of every task keeps the invariant, as long as neither counter can wrap unseen. */
  lemma StepKeeps(st: State, a: Action)
    requires Inv(st) && WithinLimits(st) && WithinLimits(Step(st, a))
    ensures Inv(Step(st, a))
  {
    hide ListOk, WalksOk, Counted, Covered, Test, Found, VisitHead, WalkOn;
    if Step(st, a) != st {
      match a
      case Open(fd, writable) => SocketKeeps(st, fd, Sock(0, if writable then 1 else 0, 0, false, 0));
      case Touch(fd, left) => SocketKeeps(st, fd, st.socks[fd].(lastdata := left));
      case Begin(id, lo, hi, rd, wr, ex, timeout) =>
        var c := Call(lo, hi, rd, wr, ex, timeout, Scan1(lo), 0, hi, false, 0, false);
        BeginIsQuiet(st, id, c);
        PutKeeps(st, id, c);
      case Advance(id) =>
        SocketsStay(st, id);
        AdvanceKeeps(st, id);
      case SemFail(id) => ReturnKeeps(st, id);
      case Wake(id) => RousedKeeps(st, id, st.calls[id].sem - 1, st.calls[id].timedOut);
      case TimeOut(id) => RousedKeeps(st, id, st.calls[id].sem, true);
      case Deliver(w, fd, evt) => DeliverKeeps(st, w, fd, evt);
      case WalkStep(w) => WalkOnKeeps(st, w);
    }
  }

  lemma SocketsStay(st: State, id: Id)
    requires id in st.calls
    ensures AdvanceCall(st, id).socks.Keys == st.socks.Keys
  {
  }

  /** The invariant holds after every run within the limits. */
  lemma {:induction false} RunKeeps(acts: seq<Action>)
    requires StaysBounded(acts, WAITING_MODULUS - 1, CTR_MODULUS - 1)
    ensures Inv(Exec(acts))
  {
    if acts == [] {
      assert Exec(acts) == INIT;
    } else {
      var before := acts[..|acts| - 1];
      assert acts[..|acts|] == acts;
      forall k | 0 <= k <= |before| ensures WithinLimits(Exec(before[..k])) {
        assert before[..k] == acts[..k];
      }
      RunKeeps(before);
      assert before[..|before|] == before;
      StepKeeps(Exec(before), acts[|acts| - 1]);
    }
  }

  lemma NoneIsLost(st: State)
    requires Inv(st)
    ensures NoLostWakeup(st)
  {
  }

  lemma SameResidue(g: nat, h: nat)
    requires g <= h < g + CTR_MODULUS && g % CTR_MODULUS == h % CTR_MODULUS
    ensures g == h
  {
  }

  lemma WalksAreSafe(st: State)
    requires Inv(st) && WithinLimits(st)
    ensures WalkSafe(st)
  {
    hide ListOk, CallsOk, Counted, Covered;
    forall w | w in st.walks && st.walks[w].seen == st.ctr ensures st.walks[w].at in st.list {
      assert WalkOk(st, st.walks[w]);
      SameResidue(st.walks[w].gen, st.gen);
    }
  }

  lemma BoundsWeaken(acts: seq<Action>, n: nat, m: nat)
    requires StaysBounded(acts, n, m) && n < WAITING_MODULUS && m < CTR_MODULUS
    ensures StaysBounded(acts, WAITING_MODULUS - 1, CTR_MODULUS - 1)
  {
    forall k | 0 <= k <= |acts| ensures WithinLimits(Exec(acts[..k])) {
      assert Bounded(Exec(acts[..k]), n, m);
    }
  }

  /** After every run within the limits: nobody sleeps on an event that no delivery will still bring,
      no delivery touches a waiter that has left, and select_waiting counts the registered calls. */
  lemma RunIsSafe(acts: seq<Action>, n: nat, m: nat)
    requires StaysBounded(acts, n, m) && n < WAITING_MODULUS && m < CTR_MODULUS
    ensures NoLostWakeup(Exec(acts)) && WalkSafe(Exec(acts)) && Counted(Exec(acts))
  {
    BoundsWeaken(acts, n, m);
    RunKeeps(acts);
    NoneIsLost(Exec(acts));
    assert acts[..|acts|] == acts;
    WalksAreSafe(Exec(acts));
  }

  /** The assertion before each decrement of select_waiting holds, and the socket is still there. */
  lemma DecrementIsSafe(acts: seq<Action>, n: nat, m: nat, id: Id)
    requires StaysBounded(acts, n, m) && n < WAITING_MODULUS && m < CTR_MODULUS
    requires id in Exec(acts).calls && Exec(acts).calls[id].pc.Dereg?
    requires Exec(acts).calls[id].pc.i < Exec(acts).calls[id].hi2
    requires Exec(acts).calls[id].Watches(Exec(acts).calls[id].pc.i)
    ensures Exec(acts).calls[id].pc.i in Exec(acts).socks
    ensures Exec(acts).socks[Exec(acts).calls[id].pc.i].waiting > 0
  {
    BoundsWeaken(acts, n, m);
    RunKeeps(acts);
    DeregisterKeeps(Exec(acts), id);
  }
}
