/** What a call of sal_select returns, over every run: the count of its last scan, each descriptor counted as it was
    at the moment the scan looked at it, or -1 if a descriptor was no socket, or 0 after the time is up. */
module SalSelectResult {
  import opened SalSelect
  import opened SalSelectProof
  import opened SalSelectLeftover
  import opened SalSelectReason
  import SalSelectLimits

  /** How many of the sets of the call ask for what descriptor s offers. */
  ghost function Offers(st: State, c: Call, s: int): nat {
    if s !in st.socks then 0
    else
      (if s in c.rd && (st.socks[s].rcvevent > 0 || st.socks[s].lastdata) then 1 else 0) +
      (if s in c.wr && st.socks[s].sendevent != 0 then 1 else 0) +
      (if s in c.ex && st.socks[s].errevent != 0 then 1 else 0)
  }

  /** The n-th scan of the call comes to descriptor i next. */
  ghost predicate Scanning(c: Call, n: int, i: int) {
    match c.pc
    case Scan1(k) => n == 1 && k == i
    case Scan2(k) => n == 2 && k == i
    case Scan3(k) => n == 3 && k == i
    case _ => false
  }

  ghost predicate SameCall(c: Call, c': Call) {
    c.lo == c'.lo && c.hi == c'.hi && c.rd == c'.rd && c.wr == c'.wr && c.ex == c'.ex && c.timeout == c'.timeout
  }

  ghost predicate ComesTo(st: State, id: Id, c: Call, n: int, i: int) {
    id in st.calls && SameCall(st.calls[id], c) && Scanning(st.calls[id], n, i)
  }

  /** Step k is the look of the n-th scan at descriptor i, and the call is under way since. */
  ghost predicate LooksAt(acts: seq<Action>, id: Id, c: Call, n: int, i: int, k: nat) {
    && k < |acts| && acts[k] == Advance(id) && ComesTo(Exec(acts[..k]), id, c, n, i)
    && forall j :: k <= j <= |acts| ==> id in Exec(acts[..j]).calls
  }

  /** The n-th scan looked at the descriptors from lo on at the moments t, one after the other. */
  ghost predicate Looks(acts: seq<Action>, id: Id, c: Call, n: int, t: seq<nat>) {
    && (forall j, k :: 0 <= j < k < |t| ==> t[j] < t[k])
    && (forall j :: 0 <= j < |t| ==> LooksAt(acts, id, c, n, c.lo + j, t[j]))
  }

  /** What was on offer at these moments. */
  ghost function Total(acts: seq<Action>, c: Call, t: seq<nat>): nat {
    if t == [] then 0
    else
      var last := |t| - 1;
      Total(acts, c, t[..last]) + if t[last] <= |acts| then Offers(Exec(acts[..t[last]]), c, c.lo + last) else 0
  }

  /** A scan of the call has looked at all its descriptors and found so many. */
  ghost predicate Scanned(acts: seq<Action>, id: Id, c: Call, n: int, found: int) {
    var size := if c.lo < c.hi then c.hi - c.lo else 0;
    exists t :: |t| == size && Looks(acts, id, c, n, t) && Total(acts, c, t) == found
  }

  // ---------------------------------------------------------------- single steps

  lemma FoundIsOffered(st: State, c: Call, i: int)
    requires c.lo <= i < c.hi
    ensures Found(st, c, i) == Offers(st, c, i)
  {
  }

  lemma StaysSameCall(st: State, a: Action, id: Id)
    requires id in st.calls && id in Step(st, a).calls
    ensures SameCall(st.calls[id], Step(st, a).calls[id])
  {
    hide AdvanceCall, DeliverTo, WalkOn;
    match a
    case Advance(own) =>
      if own == id {
        OwnSameCall(st, id);
      } else if own in st.calls {
        AdvanceOthers(st, own, id);
      }
    case Deliver(_, _, _) => VisitsMoveNothing(st, a, id);
    case WalkStep(_) => VisitsMoveNothing(st, a, id);
    case _ =>
  }

  lemma OwnSameCall(st: State, id: Id)
    requires id in st.calls && id in AdvanceCall(st, id).calls
    ensures SameCall(st.calls[id], AdvanceCall(st, id).calls[id])
  {
    hide AdvanceCall, SameCall;
    var pc := st.calls[id].pc;
    if pc.Scan1? || pc.Scan2? || pc.Scan3? {
      ScanSameCall(st, id);
    } else if pc.Reg? {
      RegSameCall(st, id);
    } else if pc.Dereg? {
      DeregSameCall(st, id);
    } else {
      ListSameCall(st, id);
    }
  }

  lemma ScanSameCall(st: State, id: Id)
    requires id in st.calls && (st.calls[id].pc.Scan1? || st.calls[id].pc.Scan2? || st.calls[id].pc.Scan3?)
    requires id in AdvanceCall(st, id).calls
    ensures SameCall(st.calls[id], AdvanceCall(st, id).calls[id])
  {
    hide Found, Without, Changed, Call.Watches;
  }

  lemma RegSameCall(st: State, id: Id)
    requires id in st.calls && st.calls[id].pc.Reg? && id in AdvanceCall(st, id).calls
    ensures SameCall(st.calls[id], AdvanceCall(st, id).calls[id])
  {
    hide Found, Without, Call.Watches;
  }

  lemma DeregSameCall(st: State, id: Id)
    requires id in st.calls && st.calls[id].pc.Dereg? && id in AdvanceCall(st, id).calls
    ensures SameCall(st.calls[id], AdvanceCall(st, id).calls[id])
  {
    hide Found, Without, Call.Watches;
  }

  lemma ListSameCall(st: State, id: Id)
    requires id in st.calls && (st.calls[id].pc.Link? || st.calls[id].pc.Asleep? || st.calls[id].pc.Unlink?)
    requires id in AdvanceCall(st, id).calls
    ensures SameCall(st.calls[id], AdvanceCall(st, id).calls[id])
  {
    hide Without;
  }

  /** A scan begins at the first descriptor with nothing counted, or looks at one more, or waits. */
  ghost predicate ScanMoves(st: State, a: Action, id: Id, n: int, i: int)
    requires id in Step(st, a).calls
  {
    var c' := Step(st, a).calls[id];
    || (i == c'.lo && c'.nready == 0)
    || (&& id in st.calls && a == Advance(id) && Scanning(st.calls[id], n, i - 1) && i <= c'.hi
        && c'.nready == st.calls[id].nready + Found(st, st.calls[id], i - 1))
    || (id in st.calls && Scanning(st.calls[id], n, i) && c'.nready == st.calls[id].nready)
  }

  lemma OwnScanMoves(st: State, id: Id, n: int, i: int)
    requires id in st.calls && id in AdvanceCall(st, id).calls && Scanning(AdvanceCall(st, id).calls[id], n, i)
    ensures ScanMoves(st, Advance(id), id, n, i)
  {
    hide AdvanceCall, ScanMoves, Scanning;
    var pc := st.calls[id].pc;
    if pc.Scan1? || pc.Scan2? || pc.Scan3? {
      ScanGoesOn(st, id, n, i);
    } else if pc.Reg? || pc.Unlink? {
      ScanBegins(st, id, n, i);
    } else {
      NoScanBegins(st, id, n, i);
      assert false;
    }
  }

  lemma ScanGoesOn(st: State, id: Id, n: int, i: int)
    requires id in st.calls && (st.calls[id].pc.Scan1? || st.calls[id].pc.Scan2? || st.calls[id].pc.Scan3?)
    requires id in AdvanceCall(st, id).calls && Scanning(AdvanceCall(st, id).calls[id], n, i)
    ensures ScanMoves(st, Advance(id), id, n, i)
  {
    hide Found;
  }

  lemma ScanBegins(st: State, id: Id, n: int, i: int)
    requires id in st.calls && (st.calls[id].pc.Reg? || st.calls[id].pc.Unlink?)
    requires id in AdvanceCall(st, id).calls && Scanning(AdvanceCall(st, id).calls[id], n, i)
    ensures ScanMoves(st, Advance(id), id, n, i)
  {
    hide Found, Without, Call.Watches;
  }

  lemma NoScanBegins(st: State, id: Id, n: int, i: int)
    requires id in st.calls && (st.calls[id].pc.Link? || st.calls[id].pc.Asleep? || st.calls[id].pc.Dereg?)
    requires id in AdvanceCall(st, id).calls
    ensures !Scanning(AdvanceCall(st, id).calls[id], n, i)
  {
    hide Found, Without, Call.Watches;
  }

  lemma ScansMove(st: State, a: Action, id: Id, n: int, i: int)
    requires id in Step(st, a).calls && Scanning(Step(st, a).calls[id], n, i)
    ensures ScanMoves(st, a, id, n, i)
  {
    hide AdvanceCall, DeliverTo, WalkOn, Found;
    match a
    case Advance(own) =>
      if own == id && id in st.calls {
        OwnScanMoves(st, id, n, i);
      } else if own in st.calls {
        AdvanceOthers(st, own, id);
      }
    case Deliver(_, _, _) => VisitsMoveNothing(st, a, id);
    case WalkStep(_) => VisitsMoveNothing(st, a, id);
    case _ =>
  }

  // ---------------------------------------------------------------- runs

  lemma LookStays(acts: seq<Action>, a: Action, id: Id, c: Call, n: int, i: int, k: nat)
    requires LooksAt(acts, id, c, n, i, k) && id in Exec(acts + [a]).calls
    ensures LooksAt(acts + [a], id, c, n, i, k)
  {
    hide Exec, ComesTo;
    var more := acts + [a];
    assert more[..k] == acts[..k];
    forall j | k <= j <= |more| ensures id in Exec(more[..j]).calls {
      assert more[..j] == if j <= |acts| then acts[..j] else more;
    }
  }

  lemma {:induction false} TotalStays(acts: seq<Action>, a: Action, c: Call, t: seq<nat>)
    requires forall j :: 0 <= j < |t| ==> t[j] <= |acts|
    ensures Total(acts + [a], c, t) == Total(acts, c, t)
  {
    hide Exec, Offers;
    if t != [] {
      var last := |t| - 1;
      TotalStays(acts, a, c, t[..last]);
      assert (acts + [a])[..t[last]] == acts[..t[last]];
    }
  }

  /** What has been looked at so far is what the call has counted. */
  ghost predicate CountsTo(acts: seq<Action>, id: Id, c: Call, n: int, i: int, found: int) {
    exists t :: |t| == i - c.lo && Looks(acts, id, c, n, t) && Total(acts, c, t) == found
  }

  lemma CountStays(acts: seq<Action>, a: Action, id: Id, c: Call, n: int, i: int, found: int)
    requires CountsTo(acts, id, c, n, i, found) && id in Exec(acts + [a]).calls
    ensures CountsTo(acts + [a], id, c, n, i, found)
  {
    hide Exec, LooksAt, Total;
    var t: seq<nat> :| |t| == i - c.lo && Looks(acts, id, c, n, t) && Total(acts, c, t) == found;
    MomentsPass(acts, id, c, n, t);
    TotalStays(acts, a, c, t);
    forall j | 0 <= j < |t| ensures LooksAt(acts + [a], id, c, n, c.lo + j, t[j]) {
      LookStays(acts, a, id, c, n, c.lo + j, t[j]);
    }
    assert Looks(acts + [a], id, c, n, t);
  }

  lemma MomentsPass(acts: seq<Action>, id: Id, c: Call, n: int, t: seq<nat>)
    requires Looks(acts, id, c, n, t)
    ensures forall j :: 0 <= j < |t| ==> t[j] < |acts|
  {
    hide Exec, ComesTo;
  }

  lemma CountGrows(acts: seq<Action>, id: Id, c: Call, n: int, i: int, found: int)
    requires CountsTo(acts, id, c, n, i, found) && c.lo <= i && ComesTo(Exec(acts), id, c, n, i)
    requires id in Exec(acts + [Advance(id)]).calls
    ensures CountsTo(acts + [Advance(id)], id, c, n, i + 1, found + Offers(Exec(acts), c, i))
  {
    hide Exec, LooksAt, Offers, ComesTo;
    var more := acts + [Advance(id)];
    CountStays(acts, Advance(id), id, c, n, i, found);
    var t: seq<nat> :| |t| == i - c.lo && Looks(acts, id, c, n, t) && Total(acts, c, t) == found;
    MomentsPass(acts, id, c, n, t);
    TotalStays(acts, Advance(id), c, t);
    forall j | 0 <= j < |t| ensures LooksAt(more, id, c, n, c.lo + j, t[j]) {
      LookStays(acts, Advance(id), id, c, n, c.lo + j, t[j]);
    }
    LooksNow(acts, id, c, n, i);
    var t' := t + [|acts|];
    assert t'[..|t|] == t && more[..|acts|] == acts;
    assert Looks(more, id, c, n, t');
  }

  lemma LooksNow(acts: seq<Action>, id: Id, c: Call, n: int, i: int)
    requires ComesTo(Exec(acts), id, c, n, i) && id in Exec(acts + [Advance(id)]).calls
    ensures LooksAt(acts + [Advance(id)], id, c, n, i, |acts|)
  {
    hide Exec;
    var more := acts + [Advance(id)];
    assert more[..|acts|] == acts && more[..|more|] == more;
  }

  lemma CountRenamed(acts: seq<Action>, id: Id, c: Call, c': Call, n: int, i: int, found: int)
    requires CountsTo(acts, id, c, n, i, found) && SameCall(c, c')
    ensures CountsTo(acts, id, c', n, i, found)
  {
    hide Exec;
    var t: seq<nat> :| |t| == i - c.lo && Looks(acts, id, c, n, t) && Total(acts, c, t) == found;
    assert forall j :: 0 <= j < |t| ==> LooksAt(acts, id, c, n, c.lo + j, t[j]);
    assert Looks(acts, id, c', n, t);
    TotalRenamed(acts, c, c', t);
  }

  lemma {:induction false} TotalRenamed(acts: seq<Action>, c: Call, c': Call, t: seq<nat>)
    requires SameCall(c, c')
    ensures Total(acts, c, t) == Total(acts, c', t)
  {
    hide Exec;
    if t != [] {
      TotalRenamed(acts, c, c', t[..|t| - 1]);
    }
  }

  /** During a scan nready is what the scan has found so far. */
  lemma {:induction false} ScanCounts(acts: seq<Action>, id: Id, n: int, i: int)
    requires id in Exec(acts).calls && Scanning(Exec(acts).calls[id], n, i)
    ensures var c := Exec(acts).calls[id];
      c.lo <= i && (i <= c.hi || i == c.lo) && CountsTo(acts, id, c, n, i, c.nready)
    decreases |acts|
  {
    hide Step, CountsTo, Found, Offers, Scanning;
    if acts != [] {
      var pre, a := acts[..|acts| - 1], acts[|acts| - 1];
      assert pre + [a] == acts;
      var st, c' := Exec(pre), Exec(acts).calls[id];
      ScansMove(st, a, id, n, i);
      if i == c'.lo && c'.nready == 0 {
        NothingYet(acts, id, c', n);
      } else {
        var c := st.calls[id];
        StaysSameCall(st, a, id);
        if a == Advance(id) && Scanning(c, n, i - 1) && c'.nready == c.nready + Found(st, c, i - 1) && i <= c'.hi {
          ScanCounts(pre, id, n, i - 1);
          FoundIsOffered(st, c, i - 1);
          CountGrows(pre, id, c, n, i - 1, c.nready);
        } else {
          ScanCounts(pre, id, n, i);
          CountStays(pre, a, id, c, n, i, c.nready);
        }
        CountRenamed(acts, id, c, c', n, i, c'.nready);
      }
    }
  }

  lemma NothingYet(acts: seq<Action>, id: Id, c: Call, n: int)
    ensures CountsTo(acts, id, c, n, c.lo, 0)
  {
    hide Exec;
    assert Looks(acts, id, c, n, []) && Total(acts, c, []) == 0;
  }

  // ---------------------------------------------------------------- from the first scan to the last

  /** Step k found that descriptor s, which the call watches, is no socket. */
  ghost predicate Missed(acts: seq<Action>, id: Id, c: Call, k: nat, s: int) {
    && k < |acts| && acts[k] == Advance(id) && c.Watches(s) && s !in Exec(acts[..k]).socks
    && forall j :: k <= j <= |acts| ==> id in Exec(acts[..j]).calls
  }

  ghost predicate NoSocket(acts: seq<Action>, id: Id, c: Call) {
    exists k: nat, s: int :: Missed(acts, id, c, k, s)
  }

  /** What is known of a call about to leave the list. */
  ghost predicate Leaves(acts: seq<Action>, id: Id, c: Call) {
    || (c.nready == -1 && NoSocket(acts, id, c))
    || (c.nready > 0 && !c.timedOut && Scanned(acts, id, c, 2, c.nready))
    || (c.nready == 0 && (c.timedOut || c.signalled) && Scanned(acts, id, c, 2, 0))
  }

  /** What is known of a call, wherever it is. */
  ghost predicate Stage(acts: seq<Action>, id: Id, c: Call) {
    && (!c.pc.Scan1? ==> !c.timeout.Poll? && Scanned(acts, id, c, 1, 0))
    && (c.pc.Link? || c.pc.Reg? || c.pc.Asleep? ==> c.nready == 0)
    && (c.pc.Asleep? ==> Scanned(acts, id, c, 2, 0))
    && (c.timedOut ==> c.timeout.Finite? && (c.pc.Dereg? || c.pc.Unlink?))
    && (c.pc.Dereg? || c.pc.Unlink? ==> Leaves(acts, id, c))
  }

  lemma ScannedStays(acts: seq<Action>, a: Action, id: Id, c: Call, c': Call, n: int, found: int)
    requires Scanned(acts, id, c, n, found) && id in Exec(acts + [a]).calls && SameCall(c, c')
    ensures Scanned(acts + [a], id, c', n, found)
  {
    hide Exec, Looks, Total;
    var end := c.lo + if c.lo < c.hi then c.hi - c.lo else 0;
    assert CountsTo(acts, id, c, n, end, found);
    CountStays(acts, a, id, c, n, end, found);
    CountRenamed(acts + [a], id, c, c', n, end, found);
  }

  lemma NoSocketStays(acts: seq<Action>, a: Action, id: Id, c: Call, c': Call)
    requires NoSocket(acts, id, c) && id in Exec(acts + [a]).calls && SameCall(c, c')
    ensures NoSocket(acts + [a], id, c')
  {
    hide Exec;
    var k: nat, s: int :| Missed(acts, id, c, k, s);
    var more := acts + [a];
    assert more[..k] == acts[..k];
    forall j | k <= j <= |more| ensures id in Exec(more[..j]).calls {
      assert more[..j] == if j <= |acts| then acts[..j] else more;
    }
    assert Missed(more, id, c', k, s);
  }

  /** All that is known stays known while the call is where it is. */
  lemma StageStays(acts: seq<Action>, a: Action, id: Id, c: Call, c': Call)
    requires Stage(acts, id, c) && id in Exec(acts + [a]).calls && SamePlace(c, c') && (c.signalled ==> c'.signalled)
    ensures Stage(acts + [a], id, c')
  {
    hide Exec, Scanned, NoSocket;
    if !c.pc.Scan1? {
      ScannedStays(acts, a, id, c, c', 1, 0);
    }
    if c.pc.Asleep? {
      ScannedStays(acts, a, id, c, c', 2, 0);
    }
    if c.pc.Dereg? || c.pc.Unlink? {
      LeavesStays(acts, a, id, c, c');
    }
  }

  lemma LeavesStays(acts: seq<Action>, a: Action, id: Id, c: Call, c': Call)
    requires Leaves(acts, id, c) && id in Exec(acts + [a]).calls && SameCall(c, c') && c.nready == c'.nready
    requires c'.timedOut == c.timedOut && (c.signalled ==> c'.signalled)
    ensures Leaves(acts + [a], id, c')
  {
    hide Exec, Scanned, NoSocket;
    if c.nready == -1 {
      NoSocketStays(acts, a, id, c, c');
    } else {
      ScannedStays(acts, a, id, c, c', 2, c.nready);
    }
  }

  lemma MissedNow(acts: seq<Action>, id: Id, c: Call, s: int)
    requires c.Watches(s) && s !in Exec(acts).socks
    requires id in Exec(acts).calls && id in Exec(acts + [Advance(id)]).calls
    ensures NoSocket(acts + [Advance(id)], id, c)
  {
    hide Exec;
    var more := acts + [Advance(id)];
    assert more[..|acts|] == acts && more[..|more|] == more;
    assert Missed(more, id, c, |acts|, s);
  }

  /** A scan that has come to its end. */
  lemma ScanEnds(acts: seq<Action>, id: Id, n: int, i: int)
    requires id in Exec(acts).calls && Scanning(Exec(acts).calls[id], n, i) && Exec(acts).calls[id].hi <= i
    ensures var c := Exec(acts).calls[id]; c.nready >= 0 && Scanned(acts, id, c, n, c.nready)
  {
    hide Exec;
    ScanCounts(acts, id, n, i);
  }

  // ---------------------------------------------------------------- the call's own steps

  lemma OwnScan1(acts: seq<Action>, id: Id, st': State)
    requires id in Exec(acts).calls && Stage(acts, id, Exec(acts).calls[id]) && Exec(acts).calls[id].pc.Scan1?
    requires st' == Exec(acts + [Advance(id)]) == AdvanceCall(Exec(acts), id) && id in st'.calls
    ensures Stage(acts + [Advance(id)], id, st'.calls[id])
  {
    hide Exec, Scanned, Leaves, Found;
    var c := Exec(acts).calls[id];
    if c.hi <= c.pc.i {
      ScanEnds(acts, id, 1, c.pc.i);
      ScannedStays(acts, Advance(id), id, c, st'.calls[id], 1, 0);
    }
  }

  lemma OwnLink(acts: seq<Action>, id: Id, st': State)
    requires id in Exec(acts).calls && Stage(acts, id, Exec(acts).calls[id]) && Exec(acts).calls[id].pc.Link?
    requires st' == Exec(acts + [Advance(id)]) == AdvanceCall(Exec(acts), id) && id in st'.calls
    ensures Stage(acts + [Advance(id)], id, st'.calls[id])
  {
    hide Exec, Scanned, Leaves, Found;
    ScannedStays(acts, Advance(id), id, Exec(acts).calls[id], st'.calls[id], 1, 0);
  }

  lemma OwnReg(acts: seq<Action>, id: Id, st': State)
    requires id in Exec(acts).calls && Stage(acts, id, Exec(acts).calls[id]) && Exec(acts).calls[id].pc.Reg?
    requires st' == Exec(acts + [Advance(id)]) == AdvanceCall(Exec(acts), id) && id in st'.calls
    ensures Stage(acts + [Advance(id)], id, st'.calls[id])
  {
    hide Exec, Scanned, NoSocket, Found;
    var c := Exec(acts).calls[id];
    ScannedStays(acts, Advance(id), id, c, st'.calls[id], 1, 0);
    if st'.calls[id].pc.Dereg? {
      MissedNow(acts, id, st'.calls[id], c.pc.i);
    }
  }

  lemma OwnScan2(acts: seq<Action>, id: Id, st': State)
    requires id in Exec(acts).calls && Stage(acts, id, Exec(acts).calls[id]) && Exec(acts).calls[id].pc.Scan2?
    requires st' == Exec(acts + [Advance(id)]) == AdvanceCall(Exec(acts), id) && id in st'.calls
    ensures Stage(acts + [Advance(id)], id, st'.calls[id])
  {
    hide Exec, Scanned, NoSocket, Found;
    var c := Exec(acts).calls[id];
    ScannedStays(acts, Advance(id), id, c, st'.calls[id], 1, 0);
    if c.hi <= c.pc.i {
      ScanEnds(acts, id, 2, c.pc.i);
      ScannedStays(acts, Advance(id), id, c, st'.calls[id], 2, c.nready);
    }
  }

  /** Deregistering moves on, and may find a descriptor that is no socket. */
  lemma DeregMoves(st: State, id: Id)
    requires id in st.calls && st.calls[id].pc.Dereg?
    ensures id in AdvanceCall(st, id).calls
    ensures var c, c' := st.calls[id], AdvanceCall(st, id).calls[id];
      && SameCall(c, c') && c'.timedOut == c.timedOut && c'.signalled == c.signalled
      && (c'.pc.Dereg? || c'.pc.Unlink?)
      && (c'.nready == c.nready || (c'.nready == -1 && c'.Watches(c.pc.i) && c.pc.i !in st.socks))
  {
    hide Call.Watches, Found, Without;
    WatchesSame(st.calls[id], AdvanceCall(st, id).calls[id]);
  }

  lemma WatchesSame(c: Call, c': Call)
    ensures SameCall(c, c') ==> forall s :: c.Watches(s) == c'.Watches(s)
  {
  }

  lemma OwnDereg(acts: seq<Action>, id: Id, st': State)
    requires id in Exec(acts).calls && Stage(acts, id, Exec(acts).calls[id]) && Exec(acts).calls[id].pc.Dereg?
    requires st' == Exec(acts + [Advance(id)]) == AdvanceCall(Exec(acts), id) && id in st'.calls
    ensures Stage(acts + [Advance(id)], id, st'.calls[id])
  {
    hide Exec, AdvanceCall, Scanned, NoSocket, Leaves, Call.Watches;
    DeregMoves(Exec(acts), id);
    var c, c' := Exec(acts).calls[id], st'.calls[id];
    ScannedStays(acts, Advance(id), id, c, c', 1, 0);
    if c'.nready == c.nready {
      LeavesStays(acts, Advance(id), id, c, c');
    } else {
      MissedNow(acts, id, c', c.pc.i);
      MissedLeaves(acts + [Advance(id)], id, c');
    }
  }

  lemma MissedLeaves(acts: seq<Action>, id: Id, c: Call)
    requires c.nready == -1 && NoSocket(acts, id, c)
    ensures Leaves(acts, id, c)
  {
  }

  lemma OwnRest(acts: seq<Action>, id: Id, st': State)
    requires id in Exec(acts).calls && Stage(acts, id, Exec(acts).calls[id])
    requires var pc := Exec(acts).calls[id].pc; pc.Asleep? || pc.Unlink? || pc.Scan3?
    requires st' == Exec(acts + [Advance(id)]) == AdvanceCall(Exec(acts), id) && id in st'.calls
    ensures Stage(acts + [Advance(id)], id, st'.calls[id])
  {
    hide Exec, Scanned, Leaves, Found, Without;
    var c, c' := Exec(acts).calls[id], st'.calls[id];
    ScannedStays(acts, Advance(id), id, c, c', 1, 0);
    if c.pc.Asleep? {
      ScannedStays(acts, Advance(id), id, c, c', 2, 0);
    }
  }

  lemma OwnStage(acts: seq<Action>, id: Id)
    requires id in Exec(acts).calls && Stage(acts, id, Exec(acts).calls[id])
    requires id in Exec(acts + [Advance(id)]).calls
    ensures Stage(acts + [Advance(id)], id, Exec(acts + [Advance(id)]).calls[id])
  {
    hide Exec, Stage, AdvanceCall;
    OneMoreStep(acts, Advance(id));
    var st' := Exec(acts + [Advance(id)]);
    match Exec(acts).calls[id].pc
    case Scan1(_) => OwnScan1(acts, id, st');
    case Link => OwnLink(acts, id, st');
    case Reg(_) => OwnReg(acts, id, st');
    case Scan2(_) => OwnScan2(acts, id, st');
    case Dereg(_) => OwnDereg(acts, id, st');
    case _ => OwnRest(acts, id, st');
  }

  /** Waking up and running out of time. */
  lemma WakesStage(acts: seq<Action>, a: Action, id: Id)
    requires id in Exec(acts).calls && Stage(acts, id, Exec(acts).calls[id]) && Honest(Exec(acts))
    requires a == Wake(id) || a == TimeOut(id)
    ensures id in Exec(acts + [a]).calls && Stage(acts + [a], id, Exec(acts + [a]).calls[id])
  {
    hide Exec, Scanned, NoSocket, ListOk;
    OneMoreStep(acts, a);
    var c, c' := Exec(acts).calls[id], Exec(acts + [a]).calls[id];
    if c == c' {
      StageStays(acts, a, id, c, c');
    } else {
      ListedIsLinked(Exec(acts), id);
      ScannedStays(acts, a, id, c, c', 1, 0);
      ScannedStays(acts, a, id, c, c', 2, 0);
    }
  }

  lemma StageAfter(acts: seq<Action>, a: Action, id: Id)
    requires Honest(Exec(acts)) && id in Exec(acts + [a]).calls
    requires id in Exec(acts).calls ==> Stage(acts, id, Exec(acts).calls[id])
    ensures Stage(acts + [a], id, Exec(acts + [a]).calls[id])
  {
    hide Exec, Honest, Scanned, Leaves, AdvanceCall, DeliverTo, WalkOn;
    OneMoreStep(acts, a);
    var st := Exec(acts);
    if id !in st.calls {
      match a
      case Advance(own) =>
        if own in st.calls {
          AdvanceOthers(st, own, id);
        }
      case Deliver(_, _, _) => VisitsMoveNothing(st, a, id);
      case WalkStep(_) => VisitsMoveNothing(st, a, id);
      case _ =>
    } else if a == Advance(id) {
      OwnStage(acts, id);
    } else if a == Wake(id) || a == TimeOut(id) {
      WakesStage(acts, a, id);
    } else {
      OthersMoveNothing(st, a, id);
      StageStays(acts, a, id, st.calls[id], Exec(acts + [a]).calls[id]);
    }
  }

  lemma VisitsKeepSignal(st: State, a: Action, id: Id)
    requires id in st.calls && id in Step(st, a).calls && (a.Deliver? || a.WalkStep?)
    ensures st.calls[id].signalled ==> Step(st, a).calls[id].signalled
  {
    hide Position, Test, Bump;
  }

  lemma OthersMoveNothing(st: State, a: Action, id: Id)
    requires id in st.calls && id in Step(st, a).calls && a != Advance(id) && a != Wake(id) && a != TimeOut(id)
    ensures var c, c' := st.calls[id], Step(st, a).calls[id]; SamePlace(c, c') && (c.signalled ==> c'.signalled)
  {
    hide AdvanceCall, DeliverTo, WalkOn;
    match a
    case Advance(own) =>
      if own in st.calls {
        AdvanceOthers(st, own, id);
      }
    case Deliver(_, _, _) =>
      VisitsMoveNothing(st, a, id);
      VisitsKeepSignal(st, a, id);
    case WalkStep(_) =>
      VisitsMoveNothing(st, a, id);
      VisitsKeepSignal(st, a, id);
    case _ =>
  }

  lemma {:induction false} AlwaysStaged(acts: seq<Action>, id: Id)
    requires id in Exec(acts).calls
    ensures Stage(acts, id, Exec(acts).calls[id])
    decreases |acts|
  {
    hide Step, Stage, Honest;
    if acts != [] {
      var pre, a := acts[..|acts| - 1], acts[|acts| - 1];
      assert pre + [a] == acts;
      if id in Exec(pre).calls {
        AlwaysStaged(pre, id);
      }
      AlwaysHonest(pre);
      StageAfter(pre, a, id);
    }
  }

  // ---------------------------------------------------------------- what is returned

  /** A call that returns without having waited has found something or must not wait; one that has waited returns -1
      for a descriptor that is no socket, 0 once its time is up, or what its last scan has found. */
  ghost predicate Answers(acts: seq<Action>, a: Action, id: Id, answer: int)
    requires id in Exec(acts).calls
  {
    var c := Exec(acts).calls[id];
    || (answer == -1 && a == SemFail(id) && c.pc.Link?)
    || (answer == -1 && a == Advance(id) && c.pc.Unlink? && NoSocket(acts, id, c))
    || (answer == 0 && a == Advance(id) && c.pc.Unlink? && c.timeout.Finite? && Scanned(acts, id, c, 2, 0))
    || (a == Advance(id) && c.pc.Scan1? && (answer > 0 || c.timeout.Poll?) && Scanned(acts, id, c, 1, answer))
    || (a == Advance(id) && c.pc.Scan3? && Scanned(acts, id, c, 3, answer))
  }

  /** Every call that returns after any run, and what it returns. */
  lemma EveryAnswer(acts: seq<Action>, a: Action, id: Id)
    requires id in Exec(acts).calls && id !in Exec(acts + [a]).calls
    ensures Answers(acts, a, id, if a == SemFail(id) then -1 else Exec(acts).calls[id].nready)
  {
    hide Exec, Scanned, NoSocket, AdvanceCall, DeliverTo, WalkOn;
    OneMoreStep(acts, a);
    AlwaysStaged(acts, id);
    var st := Exec(acts);
    match a
    case Advance(own) =>
      if own == id {
        OwnReturns(st, id);
        if st.calls[id].pc.Scan1? {
          ScanEnds(acts, id, 1, st.calls[id].pc.i);
        } else if st.calls[id].pc.Scan3? {
          ScanEnds(acts, id, 3, st.calls[id].pc.i);
        }
      } else if own in st.calls {
        AdvanceOthers(st, own, id);
        assert false;
      }
    case Deliver(_, _, _) =>
      VisitsKeepList(st, a);
      assert false;
    case WalkStep(_) =>
      VisitsKeepList(st, a);
      assert false;
    case _ =>
  }

  lemma OwnReturns(st: State, id: Id)
    requires id in st.calls && id !in AdvanceCall(st, id).calls
    ensures var c := st.calls[id];
      || (c.pc.Scan1? && c.hi <= c.pc.i && (c.nready != 0 || c.timeout.Poll?))
      || (c.pc.Unlink? && (c.nready < 0 || c.timedOut))
      || (c.pc.Scan3? && c.hi <= c.pc.i)
  {
    hide Found, Without, Call.Watches;
  }

  ghost predicate UnderWay(acts: seq<Action>, id: Id, k: nat) {
    forall j :: k <= j <= |acts| ==> id in Exec(acts[..j]).calls
  }

  /** Step k finds that a descriptor the call registers on is no socket. */
  ghost predicate RefusedAt(acts: seq<Action>, id: Id, k: nat) {
    && k < |acts| && acts[k] == Advance(id) && UnderWay(acts, id, k)
    && var st := Exec(acts[..k]);
       var c := st.calls[id];
       c.pc.Reg? && c.pc.i < c.hi && c.Watches(c.pc.i) && c.pc.i !in st.socks
  }

  /** In step k the time is up while the call sleeps. */
  ghost predicate OutOfTimeAt(acts: seq<Action>, id: Id, k: nat) {
    && k < |acts| && acts[k] == TimeOut(id) && UnderWay(acts, id, k)
    && var c := Exec(acts[..k]).calls[id];
       c.pc.Asleep? && c.timeout.Finite?
  }

  predicate Leaving(c: Call) {
    (c.pc.Dereg? || c.pc.Unlink?) && (c.nready == -1 || c.timedOut)
  }

  lemma OwnLeaving(st: State, id: Id)
    requires id in st.calls && Leaving(st.calls[id]) && id in AdvanceCall(st, id).calls
    ensures var c, c' := st.calls[id], AdvanceCall(st, id).calls[id];
      Leaving(c') && (c.nready == -1 ==> c'.nready == -1) && (c.timedOut ==> c'.timedOut)
  {
    hide Found, Without, Call.Watches;
  }

  /** Such a call only leaves. */
  lemma LeavingStays(st: State, a: Action, id: Id)
    requires id in st.calls && Leaving(st.calls[id]) && id in Step(st, a).calls
    ensures var c, c' := st.calls[id], Step(st, a).calls[id];
      Leaving(c') && (c.nready == -1 ==> c'.nready == -1) && (c.timedOut ==> c'.timedOut)
  {
    hide AdvanceCall, DeliverTo, WalkOn;
    if a == Advance(id) {
      OwnLeaving(st, id);
    } else if a != Wake(id) && a != TimeOut(id) {
      OthersMoveNothing(st, a, id);
    }
  }

  lemma {:induction false} RefusedLeaves(acts: seq<Action>, id: Id, k: nat)
    requires RefusedAt(acts, id, k)
    ensures id in Exec(acts).calls && Leaving(Exec(acts).calls[id]) && Exec(acts).calls[id].nready == -1
    decreases |acts|
  {
    hide Exec, Leaving;
    var pre, a := acts[..|acts| - 1], acts[|acts| - 1];
    LastUnderWay(acts, id, k);
    OneMoreStep(pre, a);
    if k < |pre| {
      assert pre[..k] == acts[..k];
      RefusedLeaves(pre, id, k);
      LeavingStays(Exec(pre), a, id);
    } else {
      assert acts[..k] == pre;
      RefusedStarts(Exec(pre), id);
    }
  }

  lemma LastUnderWay(acts: seq<Action>, id: Id, k: nat)
    requires k < |acts| && UnderWay(acts, id, k)
    ensures var pre := acts[..|acts| - 1];
      acts == pre + [acts[|acts| - 1]] && UnderWay(pre, id, k) && id in Exec(pre).calls && id in Exec(acts).calls
  {
    hide Exec;
    var pre := acts[..|acts| - 1];
    assert acts[..|acts|] == acts;
    forall j | k <= j <= |pre| ensures id in Exec(pre[..j]).calls {
      assert pre[..j] == acts[..j];
    }
    assert acts[..|acts| - 1] == pre;
  }

  lemma RefusedStarts(st: State, id: Id)
    requires id in st.calls && st.calls[id].pc.Reg? && st.calls[id].pc.i < st.calls[id].hi
    requires st.calls[id].Watches(st.calls[id].pc.i) && st.calls[id].pc.i !in st.socks
    ensures var st' := Step(st, Advance(id));
      id in st'.calls && Leaving(st'.calls[id]) && st'.calls[id].nready == -1
  {
    hide Found, Without;
  }

  lemma {:induction false} OutOfTimeLeaves(acts: seq<Action>, id: Id, k: nat)
    requires OutOfTimeAt(acts, id, k)
    ensures id in Exec(acts).calls && Leaving(Exec(acts).calls[id]) && Exec(acts).calls[id].timedOut
    decreases |acts|
  {
    hide Exec, Leaving;
    var pre, a := acts[..|acts| - 1], acts[|acts| - 1];
    LastUnderWay(acts, id, k);
    OneMoreStep(pre, a);
    if k < |pre| {
      assert pre[..k] == acts[..k];
      OutOfTimeLeaves(pre, id, k);
      LeavingStays(Exec(pre), a, id);
    } else {
      assert acts[..k] == pre;
      assert Leaving(Step(Exec(pre), TimeOut(id)).calls[id]) by {
        OutOfTimeStarts(Exec(pre), id);
      }
    }
  }

  lemma OutOfTimeStarts(st: State, id: Id)
    requires id in st.calls && st.calls[id].pc.Asleep? && st.calls[id].timeout.Finite?
    ensures var st' := Step(st, TimeOut(id)); id in st'.calls && Leaving(st'.calls[id]) && st'.calls[id].timedOut
  {
  }

  /** A call that finds no socket when it registers returns -1 in any case, and one whose time is up never looks again:
      signalled or not, it returns 0, unless a descriptor of its sets was no socket. */
  lemma AnswersExactly(acts: seq<Action>, a: Action, id: Id)
    requires id in Exec(acts).calls && id !in Exec(acts + [a]).calls
    ensures var answer := if a == SemFail(id) then -1 else Exec(acts).calls[id].nready;
      && ((exists k: nat :: RefusedAt(acts, id, k)) ==> answer == -1)
      && ((exists k: nat :: OutOfTimeAt(acts, id, k)) ==>
            answer == 0 || (answer == -1 && NoSocket(acts, id, Exec(acts).calls[id])))
  {
    hide Exec, NoSocket, Scanned, RefusedAt, OutOfTimeAt;
    EveryAnswer(acts, a, id);
    if k: nat :| RefusedAt(acts, id, k) {
      RefusedLeaves(acts, id, k);
    }
    if k: nat :| OutOfTimeAt(acts, id, k) {
      OutOfTimeLeaves(acts, id, k);
    }
  }

  /** A call that has waited goes on to its last scan only if its second scan found something, or if it was told. */
  lemma LastScanHasReason(acts: seq<Action>, id: Id)
    requires id in Exec(acts).calls && Exec(acts).calls[id].pc.Unlink?
    requires id in Exec(acts + [Advance(id)]).calls
    ensures (exists found :: found > 0 && Scanned(acts, id, Exec(acts).calls[id], 2, found)) || HasReason(acts, id)
  {
    hide Exec, Scanned, NoSocket, HasReason, ListOk, AdvanceCall;
    OneMoreStep(acts, Advance(id));
    AlwaysStaged(acts, id);
    AlwaysHonest(acts);
    OwnGoesOn(Exec(acts), id);
    ListedIsLinked(Exec(acts), id);
    if Exec(acts).calls[id].signalled {
      SignalHasReason(acts, id);
    }
  }

  lemma OwnGoesOn(st: State, id: Id)
    requires id in st.calls && st.calls[id].pc.Unlink? && id in AdvanceCall(st, id).calls
    ensures st.calls[id].nready >= 0 && !st.calls[id].timedOut
  {
    hide Without;
  }

  // ---------------------------------------------------------------- descriptors past maxfdp1

  /** The sets of the call have no member outside its range of descriptors. */
  ghost predicate WithinRange(c: Call) {
    forall s :: s in c.rd || s in c.wr || s in c.ex ==> c.lo <= s < c.hi
  }

  lemma {:induction false} SameSince(acts: seq<Action>, k: nat, j: nat, id: Id)
    requires k <= j <= |acts| && ListedSince(acts, k, id)
    ensures id in Exec(acts[..k]).calls && id in Exec(acts[..j]).calls
    ensures SameCall(Exec(acts[..k]).calls[id], Exec(acts[..j]).calls[id])
    decreases j
  {
    hide Step, ListOk;
    AlwaysHonest(acts[..j]);
    ListedIsLinked(Exec(acts[..j]), id);
    if k < j {
      SameSince(acts, k, j - 1, id);
      assert acts[..j][..j - 1] == acts[..j - 1];
      StaysSameCall(Exec(acts[..j - 1]), acts[j - 1], id);
    }
  }

  /** With such sets the reason for a signal is a socket the call watches. */
  lemma ReasonIsWatched(acts: seq<Action>, id: Id)
    requires id in Exec(acts).list && id in Exec(acts).calls && Exec(acts).calls[id].signalled
    requires WithinRange(Exec(acts).calls[id])
    ensures exists k, s ::
      0 <= k < |acts| && Told(acts, k, id, s) && ListedSince(acts, k, id) && Exec(acts).calls[id].Watches(s)
  {
    hide Exec;
    SignalHasReason(acts, id);
    var k, s :| 0 <= k < |acts| && Told(acts, k, id, s) && ListedSince(acts, k, id);
    SameSince(acts, k, |acts|, id);
    assert acts[..|acts|] == acts;
  }

  /** One call sleeps on socket 0, and a second one asks for socket 0 although its maxfdp1 leaves no descriptor. */
  function Beside(pc: Pc, linked: bool): State {
    var st, bystander := SalSelectLimits.Crowd(1), Call(0, 0, {0}, {}, {}, Forever, pc, 0, 0, false, 0, false);
    if linked then st.(calls := st.calls[1 := bystander], list := [1] + st.list, ctr := 2, gen := 2)
    else st.(calls := st.calls[1 := bystander])
  }

  lemma PutAgain<T>(m: map<Id, T>, x: T, y: T)
    ensures m[1 := x][1 := y] == m[1 := y]
  {
  }

  lemma Joins()
    ensures Step(SalSelectLimits.Crowd(1), Begin(1, 0, 0, {0}, {}, {}, Forever)) == Beside(Scan1(0), false)
    ensures Step(Beside(Scan1(0), false), Advance(1)) == Beside(Link, false)
    ensures Step(Beside(Link, false), Advance(1)) == Beside(Reg(0), true)
  {
    PutAgain(SalSelectLimits.Crowd(1).calls, Beside(Scan1(0), false).calls[1], Beside(Link, false).calls[1]);
    PutAgain(SalSelectLimits.Crowd(1).calls, Beside(Link, false).calls[1], Beside(Reg(0), true).calls[1]);
  }

  lemma FallsAsleep()
    ensures Step(Beside(Reg(0), true), Advance(1)) == Beside(Scan2(0), true)
    ensures Step(Beside(Scan2(0), true), Advance(1)) == Beside(Asleep, true)
  {
    PutAgain(SalSelectLimits.Crowd(1).calls, Beside(Reg(0), true).calls[1], Beside(Scan2(0), true).calls[1]);
    PutAgain(SalSelectLimits.Crowd(1).calls, Beside(Scan2(0), true).calls[1], Beside(Asleep, true).calls[1]);
  }

  /** Without that it need not be: a delivery does not compare descriptors with maxfdp1, so a call that watches nothing,
      and may wait forever, is signalled. */
  lemma SignalledPastRange() returns (acts: seq<Action>)
    ensures var st := Exec(acts);
      && 1 in st.list && 1 in st.calls && st.calls[1].pc.Asleep? && st.calls[1].timeout.Forever?
      && st.calls[1].signalled && forall s :: !st.calls[1].Watches(s)
  {
    hide Exec, Step, Beside;
    SalSelectLimits.CrowdReachable(1, 1, 1);
    var a0 :| StaysBounded(a0, 1, 1) && Exec(a0) == SalSelectLimits.Crowd(1);
    Joins();
    FallsAsleep();
    var a1 := a0 + [Begin(1, 0, 0, {0}, {}, {}, Forever)];
    OneMoreStep(a0, Begin(1, 0, 0, {0}, {}, {}, Forever));
    OneMoreStep(a1, Advance(1));
    var a2 := a1 + [Advance(1)];
    OneMoreStep(a2, Advance(1));
    var a3 := a2 + [Advance(1)];
    OneMoreStep(a3, Advance(1));
    var a4 := a3 + [Advance(1)];
    OneMoreStep(a4, Advance(1));
    var a5 := a4 + [Advance(1)];
    acts := a5 + [Deliver(0, 0, RcvPlus)];
    OneMoreStep(a5, Deliver(0, 0, RcvPlus));
    BystanderSignalled();
  }

  lemma BystanderSignalled()
    ensures var st := Step(Beside(Asleep, true), Deliver(0, 0, RcvPlus));
      && 1 in st.list && 1 in st.calls && st.calls[1].pc.Asleep? && st.calls[1].timeout.Forever?
      && st.calls[1].signalled && forall s :: !st.calls[1].Watches(s)
  {
    hide Call.Watches, SalSelectLimits.Crowd;
    CrowdSocket();
    var st := Beside(Asleep, true);
    SalSelectLimits.CountedStep(st, 0, 0);
    var st1 := st.(socks := st.socks[0 := st.socks[0].(rcvevent := 1)]);
    VisitSignalsBystander(st1);
    WatchesNothing(st.calls[1].(signalled := true, sem := 1));
  }

  lemma CrowdSocket()
    ensures var st := SalSelectLimits.Crowd(1);
      st.socks == map[0 := Sock(0, 0, 0, false, 1)] && st.walks == map[]
  {
  }

  lemma VisitSignalsBystander(st: State)
    requires 0 in st.socks && st.list != [] && st.list[0] == 1 && 1 in st.calls
    requires !st.calls[1].signalled && st.calls[1].sem == 0 && st.socks[0].rcvevent > 0 && 0 in st.calls[1].rd
    ensures var st' := VisitHead(st, 0, 0);
      st'.list == st.list && 1 in st'.calls && st'.calls[1] == st.calls[1].(signalled := true, sem := 1)
  {
  }

  lemma WatchesNothing(c: Call)
    requires c.hi <= c.lo
    ensures forall s :: !c.Watches(s)
  {
  }
}
