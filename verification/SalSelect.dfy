/** The select/event protocol of the socket layer: any number of tasks inside `sal_select`, any
    number of tasks inside `sal_deal_event`, sharing the waiter list, its change counter and the
    per-socket counters.  One step is one stretch between taking and releasing the protection lock
    (or a purely local decision). */
module SalSelect {

  type Id = nat

  const WAITING_MODULUS := 0x100        // select_waiting is a uint8_t
  const CTR_MODULUS := 0x1_0000_0000    // select_cb_ctr is a 32-bit int

  datatype Event = RcvPlus | RcvMinus | SendPlus | SendMinus | Error

  /** rcvevent is an int16_t, sendevent and errevent are uint16_t, waiting is a uint8_t. */
  datatype Sock = Sock(rcvevent: int, sendevent: int, errevent: int, lastdata: bool, waiting: int)

  datatype Timeout = Poll | Finite | Forever

  /** Where a call of sal_select is.  The scans and the two registration loops carry their index. */
  datatype Pc =
    | Scan1(i: int)
    | Link
    | Reg(i: int)
    | Scan2(i: int)
    | Asleep
    | Dereg(i: int)
    | Unlink
    | Scan3(i: int)

  /** One call of sal_select together with its select_cb.  `lo` is the first descriptor number,
      `hi` is maxfdp1 and `hi2` is maxfdp2. */
  datatype Call = Call(
    lo: int, hi: int, rd: set<int>, wr: set<int>, ex: set<int>, timeout: Timeout,
    pc: Pc, nready: int, hi2: int, signalled: bool, sem: nat, timedOut: bool)
  {
    predicate Watches(s: int) {
      lo <= s < hi && (s in rd || s in wr || s in ex)
    }

    predicate Linked() {
      pc.Reg? || pc.Scan2? || pc.Asleep? || pc.Dereg? || pc.Unlink?
    }

    /** The call has added one to the select_waiting of s and not yet taken it back. */
    predicate Registered(s: int) {
      Watches(s) &&
      match pc
      case Reg(i) => s < i
      case Scan2(_) => true
      case Asleep => true
      case Dereg(i) => i <= s < hi2
      case _ => false
    }

    /** The second scan has looked at s and found nothing so far. */
    predicate Checked(s: int) {
      Watches(s) && ((pc.Scan2? && nready == 0 && s < pc.i) || pc.Asleep?)
    }
  }

  /** A delivery that released the lock at list node `at`.  `seen` is last_select_cb_ctr; `gen` is
      auxiliary: the number of list changes there had been at that moment. */
  datatype Walk = Walk(s: int, at: Id, seen: int, gen: nat)

  /** `gen` counts all list changes; the program only has `ctr`, which wraps. */
  datatype State = State(
    socks: map<int, Sock>, calls: map<Id, Call>, walks: map<Id, Walk>, list: seq<Id>, ctr: int, gen: nat)

  const INIT := State(map[], map[], map[], [], 0, 0)

  datatype Action =
    | Open(fd: int, writable: bool)
    | Touch(fd: int, left: bool)
    | Begin(id: Id, lo: int, hi: int, rd: set<int>, wr: set<int>, ex: set<int>, timeout: Timeout)
    | Advance(id: Id)
    | SemFail(id: Id)
    | Wake(id: Id)
    | TimeOut(id: Id)
    | Deliver(w: Id, fd: int, evt: Event)
    | WalkStep(w: Id)

  // ---------------------------------------------------------------- the steps

  function Int16(n: int): int {
    (n + 0x8000) % 0x1_0000 - 0x8000
  }

  function Bump(k: Sock, evt: Event): Sock {
    match evt
    case RcvPlus => k.(rcvevent := Int16(k.rcvevent + 1))
    case RcvMinus => k.(rcvevent := Int16(k.rcvevent - 1))
    case SendPlus => k.(sendevent := (k.sendevent + 1) % 0x1_0000)
    case SendMinus => k.(sendevent := (k.sendevent - 1) % 0x1_0000)
    case Error => k.(errevent := 1)
  }

  /** The test a delivery makes on one waiter. */
  predicate Test(c: Call, k: Sock, s: int) {
    || (k.rcvevent > 0 && s in c.rd)
    || (k.sendevent != 0 && s in c.wr)
    || (k.errevent != 0 && s in c.ex)
  }

  /** What one iteration of sal_selscan adds to nready. */
  function ScanCount(c: Call, k: Sock, s: int): nat {
    (if s in c.rd && (k.lastdata || k.rcvevent > 0) then 1 else 0) +
    (if s in c.wr && k.sendevent != 0 then 1 else 0) +
    (if s in c.ex && k.errevent != 0 then 1 else 0)
  }

  function Found(st: State, c: Call, i: int): nat {
    if c.Watches(i) && i in st.socks then ScanCount(c, st.socks[i], i) else 0
  }

  function Put(st: State, id: Id, c: Call): State {
    st.(calls := st.calls[id := c])
  }

  function Return(st: State, id: Id): State {
    st.(calls := st.calls - {id})
  }

  function Changed(st: State): State {
    st.(ctr := (st.ctr + 1) % CTR_MODULUS, gen := st.gen + 1)
  }

  function Without<T(==)>(list: seq<T>, id: T): seq<T> {
    if list == [] then [] else if list[0] == id then list[1..] else [list[0]] + Without(list[1..], id)
  }

  function Position<T(==)>(list: seq<T>, id: T): (k: nat)
    requires id in list
    ensures k < |list| && list[k] == id
  {
    if list[0] == id then 0 else 1 + Position(list[1..], id)
  }

  function AdvanceCall(st: State, id: Id): State
    requires id in st.calls
  {
    var c := st.calls[id];
    match c.pc
    case Scan1(i) =>
      if i < c.hi then Put(st, id, c.(pc := Scan1(i + 1), nready := c.nready + Found(st, c, i)))
      else if c.nready != 0 || c.timeout.Poll? then Return(st, id)
      else Put(st, id, c.(pc := Link, signalled := false, sem := 0))
    case Link =>
      Changed(Put(st, id, c.(pc := Reg(c.lo), hi2 := c.hi)).(list := [id] + st.list))
    case Reg(i) =>
      if i >= c.hi then Put(st, id, c.(pc := Scan2(c.lo), nready := 0))
      else if !c.Watches(i) then Put(st, id, c.(pc := Reg(i + 1)))
      else if i in st.socks then
        var k := st.socks[i];
        Put(st, id, c.(pc := Reg(i + 1)))
          .(socks := st.socks[i := k.(waiting := (k.waiting + 1) % WAITING_MODULUS)])
      else Put(st, id, c.(pc := Dereg(c.lo), nready := -1, hi2 := i))
    case Scan2(i) =>
      if i < c.hi then Put(st, id, c.(pc := Scan2(i + 1), nready := c.nready + Found(st, c, i)))
      else if c.nready == 0 then Put(st, id, c.(pc := Asleep))
      else Put(st, id, c.(pc := Dereg(c.lo)))
    case Asleep => st
    case Dereg(i) =>
      if i >= c.hi2 then Put(st, id, c.(pc := Unlink))
      else if !c.Watches(i) then Put(st, id, c.(pc := Dereg(i + 1)))
      else if i in st.socks then
        var k := st.socks[i];
        Put(st, id, c.(pc := Dereg(i + 1)))
          .(socks := st.socks[i := k.(waiting := if k.waiting > 0 then k.waiting - 1 else 0)])
      else Put(st, id, c.(pc := Dereg(i + 1), nready := -1))
    case Unlink =>
      var off := Changed(st.(list := Without(st.list, id)));
      if c.nready < 0 || c.timedOut then Return(off, id)
      else Put(off, id, c.(pc := Scan3(c.lo), nready := 0))
    case Scan3(i) =>
      if i < c.hi then Put(st, id, c.(pc := Scan3(i + 1), nready := c.nready + Found(st, c, i)))
      else Return(st, id)
  }

  /** One node of the walk: test, signal, remember the counter, release the lock. */
  function Visit(st: State, w: Id, s: int, at: Id): State
    requires s in st.socks && at in st.calls
  {
    var c := st.calls[at];
    var told := if !c.signalled && Test(c, st.socks[s], s)
                then Put(st, at, c.(signalled := true, sem := c.sem + 1)) else st;
    told.(walks := st.walks[w := Walk(s, at, st.ctr, st.gen)])
  }

  /** The walk from the head of the list. */
  function VisitHead(st: State, w: Id, s: int): State
    requires s in st.socks
  {
    if st.list != [] && st.list[0] in st.calls then Visit(st, w, s, st.list[0])
    else st.(walks := st.walks - {w})
  }

  function DeliverTo(st: State, w: Id, fd: int, evt: Event): State
    requires fd in st.socks
  {
    var st' := st.(socks := st.socks[fd := Bump(st.socks[fd], evt)]);
    if st'.socks[fd].waiting == 0 then st' else VisitHead(st', w, fd)
  }

  /** Retake the lock: restart if the counter moved, else go on to the successor.  A walk whose node
      has left the list although the counter looks unmoved follows a dead pointer; that case is
      excluded by WalkSafe, and the step below then gives up. */
  function WalkOn(st: State, w: Id): State
    requires w in st.walks && st.walks[w].s in st.socks
  {
    var k := st.walks[w];
    if k.seen != st.ctr then VisitHead(st, w, k.s)
    else if k.at !in st.list then st.(walks := st.walks - {w})
    else
      var n := Position(st.list, k.at) + 1;
      if n < |st.list| && st.list[n] in st.calls then Visit(st, w, k.s, st.list[n])
      else st.(walks := st.walks - {w})
  }

  /** One step; an action that is not enabled leaves the state alone. */
  function Step(st: State, a: Action): State {
    match a
    case Open(fd, writable) =>
      if fd in st.socks then st
      else st.(socks := st.socks[fd := Sock(0, if writable then 1 else 0, 0, false, 0)])
    case Touch(fd, left) =>
      if fd in st.socks then st.(socks := st.socks[fd := st.socks[fd].(lastdata := left)]) else st
    case Begin(id, lo, hi, rd, wr, ex, timeout) =>
      if id in st.calls then st
      else Put(st, id, Call(lo, hi, rd, wr, ex, timeout, Scan1(lo), 0, hi, false, 0, false))
    case Advance(id) => if id in st.calls then AdvanceCall(st, id) else st
    case SemFail(id) => if id in st.calls && st.calls[id].pc.Link? then Return(st, id) else st
    case Wake(id) =>
      if id in st.calls && st.calls[id].pc.Asleep? && st.calls[id].sem > 0 then
        var c := st.calls[id];
        Put(st, id, c.(pc := Dereg(c.lo), sem := c.sem - 1))
      else st
    case TimeOut(id) =>
      if id in st.calls && st.calls[id].pc.Asleep? && st.calls[id].timeout.Finite? then
        var c := st.calls[id];
        Put(st, id, c.(pc := Dereg(c.lo), timedOut := true))
      else st
    case Deliver(w, fd, evt) => if w !in st.walks && fd in st.socks then DeliverTo(st, w, fd, evt) else st
    case WalkStep(w) => if w in st.walks && st.walks[w].s in st.socks then WalkOn(st, w) else st
  }

  function Exec(acts: seq<Action>): State {
    if acts == [] then INIT else Step(Exec(acts[..|acts| - 1]), acts[|acts| - 1])
  }

  // ---------------------------------------------------------------- what is claimed

  /** The calls that have registered on s and not deregistered. */
  ghost function Watchers(st: State, s: int): set<Id> {
    set id | id in st.calls && st.calls[id].Registered(s)
  }

  /** At most n calls are registered on any one socket, and no delivery is overtaken by more than m
      list changes while it has the lock released. */
  ghost predicate Bounded(st: State, n: nat, m: nat) {
    && (forall s | s in st.socks :: |Watchers(st, s)| <= n)
    && (forall w | w in st.walks :: st.gen - st.walks[w].gen <= m)
  }

  ghost predicate StaysBounded(acts: seq<Action>, n: nat, m: nat) {
    forall k | 0 <= k <= |acts| :: Bounded(Exec(acts[..k]), n, m)
  }

  /** Delivery w has still to pass waiter id: it will restart, or id lies beyond its node. */
  ghost predicate Ahead(st: State, w: Id, id: Id)
    requires w in st.walks
  {
    || st.walks[w].gen != st.gen
    || exists a, b :: 0 <= a < b < |st.list| && st.list[a] == st.walks[w].at && st.list[b] == id
  }

  ghost predicate HasWalk(st: State, s: int, id: Id) {
    exists w :: w in st.walks && st.walks[w].s == s && Ahead(st, w, id)
  }

  /** Nobody sleeps on a ready socket unless a delivery on that socket is still on its way. */
  ghost predicate NoLostWakeup(st: State) {
    forall id, s ::
      id in st.calls && st.calls[id].pc.Asleep? && !st.calls[id].signalled && st.calls[id].Watches(s) &&
      s in st.socks && Test(st.calls[id], st.socks[s], s)
      ==> HasWalk(st, s, id)
  }

  /** A delivery that finds the counter unmoved is at a node that is still on the list. */
  ghost predicate WalkSafe(st: State) {
    forall w :: w in st.walks && st.walks[w].seen == st.ctr ==> st.walks[w].at in st.list
  }

  /** select_waiting is the number of registered calls. */
  ghost predicate Counted(st: State) {
    forall s :: s in st.socks ==> st.socks[s].waiting == |Watchers(st, s)|
  }

  // ---------------------------------------------------------------- the invariant

  ghost predicate ListOk(st: State) {
    && (forall a, b :: 0 <= a < b < |st.list| ==> st.list[a] != st.list[b])
    && (forall id :: id in st.list <==> id in st.calls && st.calls[id].Linked())
  }

  ghost predicate CallOk(c: Call) {
    && (c.pc.Reg? || c.pc.Scan2? || c.pc.Asleep? ==> c.hi2 == c.hi)
    && (c.pc.Reg? || c.pc.Scan2? || c.pc.Asleep? ==> c.sem == if c.signalled then 1 else 0)
    && (c.pc.Scan2? ==> c.lo <= c.pc.i && c.nready >= 0)
    && (c.pc.Link? ==> c.sem == 0 && !c.signalled)
    && (c.pc.Dereg? ==> c.hi2 <= c.hi)
  }

  ghost predicate CallsOk(st: State) {
    && (forall id :: id in st.calls ==> CallOk(st.calls[id]))
    && (forall id, s :: id in st.calls && st.calls[id].Registered(s) ==> s in st.socks)
  }

  ghost predicate WalkOk(st: State, k: Walk) {
    && k.s in st.socks
    && k.gen <= st.gen
    && k.seen == k.gen % CTR_MODULUS
    && (k.gen == st.gen ==> k.at in st.list)
  }

  ghost predicate WalksOk(st: State) {
    && st.ctr == st.gen % CTR_MODULUS
    && (forall w :: w in st.walks ==> WalkOk(st, st.walks[w]))
  }

  ghost predicate Covered(st: State) {
    forall id, s ::
      id in st.calls && !st.calls[id].signalled && st.calls[id].Checked(s) &&
      s in st.socks && Test(st.calls[id], st.socks[s], s)
      ==> HasWalk(st, s, id)
  }

  ghost predicate Inv(st: State) {
    ListOk(st) && CallsOk(st) && WalksOk(st) && Counted(st) && Covered(st)
  }
}
