/** Delayed actions of the event loop over whole runs: posts and cancels, from callbacks or not, and loop
    turns, in any order. */
module YloopRuns {
  import opened Wrappers

  const INT_MAX := 0x7fff_ffff

  /** A posted action.  `id` counts the posts; the program does not store it. */
  datatype Action = Action(id: nat, due: int, ms: int, cb: nat, data: nat)

  // ---------------------------------------------------------------- the queue

  /** Before the first action that is due strictly later. */
  function Slot(q: seq<Action>, due: int): (k: nat)
    ensures k <= |q|
    ensures forall i :: 0 <= i < k ==> q[i].due <= due
    ensures k < |q| ==> due < q[k].due
  {
    if q == [] || due < q[0].due then 0 else 1 + Slot(q[1..], due)
  }

  function Insert(q: seq<Action>, a: Action): seq<Action> {
    q[..Slot(q, a.due)] + [a] + q[Slot(q, a.due)..]
  }

  /** What a cancel looks for: -1 stands for every delay, and the loose form for every argument. */
  predicate Matches(a: Action, ms: int, cb: nat, data: Option<nat>) {
    (ms == -1 || a.ms == ms) && a.cb == cb && (data.Some? ==> a.data == data.value)
  }

  /** The first match, or |q|. */
  function Find(q: seq<Action>, ms: int, cb: nat, data: Option<nat>): (k: nat)
    ensures k <= |q|
    ensures forall i :: 0 <= i < k ==> !Matches(q[i], ms, cb, data)
    ensures k < |q| ==> Matches(q[k], ms, cb, data)
  {
    if q == [] || Matches(q[0], ms, cb, data) then 0 else 1 + Find(q[1..], ms, cb, data)
  }

  function Remove(q: seq<Action>, k: nat): seq<Action> {
    if k < |q| then q[..k] + q[k + 1..] else q
  }

  // ---------------------------------------------------------------- runs

  datatype Event =
    | Post(now: int, ms: int, cb: nat, data: nat)
    | Cancel(ms: int, cb: nat, arg: Option<nat>)
    | Turn(now: int)

  datatype Firing = Firing(action: Action, at: int)

  datatype Run = Run(pending: seq<Action>, posted: seq<Action>, fired: seq<Firing>, cancelled: seq<Action>, clock: int)

  function Start(now: int): Run {
    Run([], [], [], [], now)
  }

  /** The clock does not go back and no delay is negative. */
  predicate Allowed(r: Run, e: Event) {
    match e
    case Post(now, ms, _, _) => r.clock <= now && 0 <= ms <= INT_MAX
    case Cancel(_, _, _) => true
    case Turn(now) => r.clock <= now
  }

  function Next(r: Run, e: Event): Run {
    match e
    case Post(now, ms, cb, data) =>
      var a := Action(|r.posted|, now + ms, ms, cb, data);
      r.(pending := Insert(r.pending, a), posted := r.posted + [a], clock := now)
    case Cancel(ms, cb, data) =>
      var k := Find(r.pending, ms, cb, data);
      if k < |r.pending| then
        r.(pending := Remove(r.pending, k), cancelled := r.cancelled + [r.pending[k]])
      else r
    case Turn(now) =>
      if r.pending != [] && r.pending[0].due <= now then
        r.(pending := r.pending[1..], fired := r.fired + [Firing(r.pending[0], now)], clock := now)
      else r.(clock := now)
  }

  function Exec(r: Run, es: seq<Event>): Run
    decreases |es|
  {
    if es == [] then r else Exec(Next(r, es[0]), es[1..])
  }

  predicate AllAllowed(r: Run, es: seq<Event>)
    decreases |es|
  {
    es == [] || (Allowed(r, es[0]) && AllAllowed(Next(r, es[0]), es[1..]))
  }

  // ---------------------------------------------------------------- what every run keeps

  /** Earlier deadline, or the same deadline and posted earlier. */
  predicate Before(a: Action, b: Action) {
    a.due < b.due || (a.due == b.due && a.id < b.id)
  }

  predicate Sorted(q: seq<Action>) {
    forall i, j :: 0 <= i < j < |q| ==> Before(q[i], q[j])
  }

  function Fired(fs: seq<Firing>): (s: seq<Action>)
    ensures |s| == |fs| && forall i :: 0 <= i < |fs| ==> s[i] == fs[i].action
  {
    seq(|fs|, i requires 0 <= i < |fs| => fs[i].action)
  }

  /** Every post is accounted for once: it waits, or was fired, or was cancelled. */
  predicate Accounted(r: Run) {
    && (forall i :: 0 <= i < |r.posted| ==> r.posted[i].id == i)
    && multiset(r.posted) == multiset(r.pending) + multiset(Fired(r.fired)) + multiset(r.cancelled)
  }

  predicate NoneEarly(r: Run) {
    forall i :: 0 <= i < |r.fired| ==> r.fired[i].action.due <= r.fired[i].at <= r.clock
  }

  predicate InOrder(r: Run) {
    && Sorted(Fired(r.fired) + r.pending)
    && (forall i :: 0 <= i < |r.pending| ==> r.pending[i].id < |r.posted| && r.pending[i].due <= r.clock + INT_MAX)
    && (forall i :: 0 <= i < |r.fired| ==> r.fired[i].action.id < |r.posted|)
  }

  predicate Inv(r: Run) {
    Accounted(r) && NoneEarly(r) && InOrder(r)
  }

  lemma SplitAt(q: seq<Action>, k: nat)
    requires k <= |q|
    ensures multiset(q) == multiset(q[..k]) + multiset(q[k..])
    ensures k < |q| ==> multiset(q[k..]) == multiset{q[k]} + multiset(q[k + 1..])
  {
    assert q == q[..k] + q[k..];
    if k < |q| {
      assert q[k..] == [q[k]] + q[k + 1..];
    }
  }

  lemma InsertSorted(w: seq<Action>, at: nat, a: Action)
    requires Sorted(w) && at <= |w|
    requires forall i :: 0 <= i < at ==> Before(w[i], a)
    requires forall i :: at <= i < |w| ==> Before(a, w[i])
    ensures Sorted(w[..at] + [a] + w[at..])
  {
    var t := w[..at] + [a] + w[at..];
    assert forall m :: 0 <= m < |t| ==> t[m] == if m < at then w[m] else if m == at then a else w[m - 1];
  }

  lemma RemoveSorted(w: seq<Action>, at: nat)
    requires Sorted(w) && at < |w|
    ensures Sorted(w[..at] + w[at + 1..])
  {
    var t := w[..at] + w[at + 1..];
    assert forall m :: 0 <= m < |t| ==> t[m] == w[if m < at then m else m + 1];
  }

  lemma InsertMembers(q: seq<Action>, a: Action)
    ensures multiset(Insert(q, a)) == multiset(q) + multiset{a}
    ensures forall x :: x in Insert(q, a) ==> x in q || x == a
  {
    SplitAt(q, Slot(q, a.due));
  }

  lemma InsertKeeps(fired: seq<Action>, q: seq<Action>, a: Action)
    requires Sorted(fired + q)
    requires forall i :: 0 <= i < |q| ==> q[i].id < a.id
    requires forall i :: 0 <= i < |fired| ==> fired[i].id < a.id && fired[i].due <= a.due
    ensures Sorted(fired + Insert(q, a))
  {
    hide Sorted;
    var k := Slot(q, a.due);
    LaterFrom(fired, q, k);
    var w, at := fired + q, |fired| + k;
    assert forall m :: 0 <= m < at ==> Before(w[m], a);
    forall m | at <= m < |w| ensures Before(a, w[m]) {
      assert w[m] == q[m - |fired|];
    }
    InsertSorted(w, at, a);
    assert fired + Insert(q, a) == w[..at] + [a] + w[at..];
  }

  lemma LaterFrom(fired: seq<Action>, q: seq<Action>, k: nat)
    requires Sorted(fired + q) && k <= |q|
    ensures forall m :: k <= m < |q| ==> q[k].due <= q[m].due
  {
    forall m | k < m < |q| ensures q[k].due <= q[m].due {
      assert Before((fired + q)[|fired| + k], (fired + q)[|fired| + m]);
    }
  }

  lemma RemoveKeeps(fired: seq<Action>, q: seq<Action>, k: nat)
    requires Sorted(fired + q) && k < |q|
    ensures Sorted(fired + Remove(q, k))
    ensures multiset(q) == multiset(Remove(q, k)) + multiset{q[k]}
    ensures forall x :: x in Remove(q, k) ==> x in q
  {
    var w, at := fired + q, |fired| + k;
    RemoveSorted(w, at);
    assert fired + Remove(q, k) == w[..at] + w[at + 1..];
    SplitAt(q, k);
  }

  lemma PostKeeps(r: Run, e: Event)
    requires Inv(r) && Allowed(r, e) && e.Post?
    ensures Inv(Next(r, e))
  {
    hide Sorted, Insert;
    var a := Action(|r.posted|, e.now + e.ms, e.ms, e.cb, e.data);
    InsertKeeps(Fired(r.fired), r.pending, a);
    InsertMembers(r.pending, a);
    var q := Insert(r.pending, a);
    assert forall i :: 0 <= i < |q| ==> q[i] in r.pending || q[i] == a;
  }

  lemma CancelKeeps(r: Run, e: Event)
    requires Inv(r) && e.Cancel?
    ensures Inv(Next(r, e))
  {
    hide Sorted, Remove;
    var k := Find(r.pending, e.ms, e.cb, e.arg);
    if k < |r.pending| {
      RemoveKeeps(Fired(r.fired), r.pending, k);
      var q := Remove(r.pending, k);
      assert forall i :: 0 <= i < |q| ==> q[i] in r.pending;
    }
  }

  lemma TurnKeeps(r: Run, e: Event)
    requires Inv(r) && Allowed(r, e) && e.Turn?
    ensures Inv(Next(r, e))
  {
    hide Sorted;
    if r.pending != [] && r.pending[0].due <= e.now {
      var fired := r.fired + [Firing(r.pending[0], e.now)];
      assert Fired(fired) == Fired(r.fired) + [r.pending[0]];
      assert Fired(fired) + r.pending[1..] == Fired(r.fired) + r.pending;
      SplitAt(r.pending, 0);
      assert r.pending[0..] == r.pending;
    }
  }

  lemma StepKeeps(r: Run, e: Event)
    requires Inv(r) && Allowed(r, e)
    ensures Inv(Next(r, e))
  {
    hide Inv, Next, Allowed;
    match e
    case Post(_, _, _, _) => PostKeeps(r, e);
    case Cancel(_, _, _) => CancelKeeps(r, e);
    case Turn(_) => TurnKeeps(r, e);
  }

  lemma {:induction false} RunKeeps(r: Run, es: seq<Event>)
    requires Inv(r) && AllAllowed(r, es)
    ensures Inv(Exec(r, es))
    decreases |es|
  {
    hide Inv, Next, Allowed;
    if es != [] {
      StepKeeps(r, es[0]);
      RunKeeps(Next(r, es[0]), es[1..]);
    }
  }

  /** Over every run: nothing fires early, each post is pending, fired or cancelled and only one of these and
      only once, and firing follows deadlines and, between equal deadlines, the order of the posts. */
  lemma EveryRun(now: int, es: seq<Event>)
    requires AllAllowed(Start(now), es)
    ensures var r := Exec(Start(now), es);
      && NoneEarly(r) && Accounted(r) && Sorted(Fired(r.fired)) && Sorted(r.pending)
      && (forall a :: a in r.posted ==>
            multiset(r.pending)[a] + multiset(Fired(r.fired))[a] + multiset(r.cancelled)[a] == 1)
  {
    hide Sorted, Exec, Before;
    SortedNothing();
    RunKeeps(Start(now), es);
    var r := Exec(Start(now), es);
    SortedParts(Fired(r.fired), r.pending);
    forall a | a in r.posted ensures multiset(r.posted)[a] == 1 {
      OnceEach(r.posted, a);
    }
  }

  lemma SortedNothing()
    ensures Sorted([] + [])
  {
  }

  lemma SortedParts(s: seq<Action>, t: seq<Action>)
    requires Sorted(s + t)
    ensures Sorted(s) && Sorted(t)
  {
    forall i, j | 0 <= i < j < |s| ensures Before(s[i], s[j]) {
      assert Before((s + t)[i], (s + t)[j]);
    }
    forall i, j | 0 <= i < j < |t| ensures Before(t[i], t[j]) {
      assert Before((s + t)[|s| + i], (s + t)[|s| + j]);
    }
  }

  lemma OnceEach(posted: seq<Action>, a: Action)
    requires a in posted && forall i, j :: 0 <= i < j < |posted| ==> posted[i].id != posted[j].id
    ensures multiset(posted)[a] == 1
  {
    var k :| 0 <= k < |posted| && posted[k] == a;
    SplitAt(posted, k);
    assert a !in posted[..k] && a !in posted[k + 1..];
  }

  // ---------------------------------------------------------------- nothing waits forever

  function Turns(es: seq<Event>): nat {
    if es == [] then 0 else (if es[0].Turn? then 1 else 0) + Turns(es[1..])
  }

  /** A post puts its action behind everything that is already due. */
  lemma PostBehind(r: Run, e: Event, k: nat)
    requires Inv(r) && Allowed(r, e) && e.Post? && k < |r.pending| && r.pending[k].due <= r.clock
    ensures k < |Next(r, e).pending| && Next(r, e).pending[k] == r.pending[k]
  {
    var at := Slot(r.pending, e.now + e.ms);
    if at <= k {
      LaterFrom(Fired(r.fired), r.pending, at);
    }
  }

  lemma TurnFires(r: Run, e: Event, k: nat)
    requires Inv(r) && Allowed(r, e) && e.Turn? && k < |r.pending| && r.pending[k].due <= r.clock
    ensures Next(r, e).pending == r.pending[1..] && Next(r, e).fired == r.fired + [Firing(r.pending[0], e.now)]
  {
    LaterFrom(Fired(r.fired), r.pending, 0);
  }

  /** An action that is due never moves back, and every turn brings it forward or fires it. */
  lemma Closer(r: Run, e: Event, k: nat) returns (k': nat)
    requires Inv(r) && Allowed(r, e) && k < |r.pending| && r.pending[k].due <= r.clock
    ensures var a, q := r.pending[k], Next(r, e).pending;
      a !in q || (k' < |q| && q[k'] == a && if e.Turn? then k' < k else k' <= k)
  {
    hide Inv;
    var a, q := r.pending[k], Next(r, e).pending;
    k' := k;
    match e
    case Post(_, _, _, _) =>
      PostBehind(r, e, k);
    case Cancel(ms, cb, arg) =>
      var at := Find(r.pending, ms, cb, arg);
      if at < k {
        k' := k - 1;
        assert q[k - 1] == a;
      } else if at == k {
        Unique(r, k);
      }
    case Turn(_) =>
      TurnFires(r, e, k);
      if k == 0 {
        Unique(r, k);
      } else {
        k' := k - 1;
      }
  }

  lemma Unique(r: Run, k: nat)
    requires Inv(r) && k < |r.pending|
    ensures r.pending[k] !in r.pending[..k] + r.pending[k + 1..]
    ensures k == 0 ==> r.pending[k] !in r.pending[1..]
  {
    var w, q := Fired(r.fired) + r.pending, r.pending;
    forall i | 0 <= i < |q| && i != k ensures q[i] != q[k] {
      assert q[i] == w[|r.fired| + i] && q[k] == w[|r.fired| + k];
      assert Before(w[|r.fired| + i], w[|r.fired| + k]) || Before(w[|r.fired| + k], w[|r.fired| + i]);
    }
  }

  /** What is no longer pending does not come back. */
  lemma {:induction false} StaysGone(r: Run, es: seq<Event>, a: Action)
    requires Inv(r) && AllAllowed(r, es) && a.id < |r.posted| && a !in r.pending
    ensures a !in Exec(r, es).pending
    decreases |es|
  {
    hide Inv, Insert, Remove;
    if es != [] {
      var e := es[0];
      StepKeeps(r, e);
      if e.Post? {
        InsertMembers(r.pending, Action(|r.posted|, e.now + e.ms, e.ms, e.cb, e.data));
      } else if e.Cancel? && Find(r.pending, e.ms, e.cb, e.arg) < |r.pending| {
        RemoveMembers(r.pending, Find(r.pending, e.ms, e.cb, e.arg));
      }
      StaysGone(Next(r, e), es[1..], a);
    }
  }

  lemma RemoveMembers(q: seq<Action>, k: nat)
    ensures forall x :: x in Remove(q, k) ==> x in q
  {
  }

  lemma {:induction false} GoneByThen(r: Run, es: seq<Event>, k: nat)
    requires Inv(r) && AllAllowed(r, es) && k < |r.pending| && r.pending[k].due <= r.clock && Turns(es) > k
    ensures r.pending[k] !in Exec(r, es).pending
    decreases |es|
  {
    hide Inv, Next;
    var a, e := r.pending[k], es[0];
    var k' := Closer(r, e, k);
    StepKeeps(r, e);
    Known(r, e, k);
    if a in Next(r, e).pending {
      GoneByThen(Next(r, e), es[1..], k');
    } else {
      StaysGone(Next(r, e), es[1..], a);
    }
  }

  lemma Known(r: Run, e: Event, k: nat)
    requires Inv(r) && Allowed(r, e) && k < |r.pending|
    ensures r.pending[k].id < |r.posted| <= |Next(r, e).posted| && r.clock <= Next(r, e).clock
  {
  }

  /** An overdue action with k actions before it is fired, not early, or cancelled within k + 1 turns of the
      loop, whatever is posted and cancelled meanwhile. */
  lemma NoStarvation(r: Run, es: seq<Event>, k: nat)
    requires Inv(r) && AllAllowed(r, es) && k < |r.pending| && r.pending[k].due <= r.clock && Turns(es) > k
    ensures var s := Exec(r, es);
      r.pending[k] in s.cancelled || exists f :: f in s.fired && f.action == r.pending[k] && f.action.due <= f.at
  {
    var a, s := r.pending[k], Exec(r, es);
    GoneByThen(r, es, k);
    RunKeeps(r, es);
    assert a in multiset(r.pending);
    assert a in multiset(r.posted);
    assert a in r.posted;
    PostedStays(r, es, a);
    assert a in multiset(s.posted) && a !in multiset(s.pending);
    if a !in s.cancelled {
      assert a in multiset(Fired(s.fired));
      var i :| 0 <= i < |s.fired| && Fired(s.fired)[i] == a;
      assert s.fired[i] in s.fired;
    }
  }

  lemma {:induction false} PostedStays(r: Run, es: seq<Event>, a: Action)
    requires a in r.posted
    ensures a in Exec(r, es).posted
    decreases |es|
  {
    if es != [] {
      PostedStays(Next(r, es[0]), es[1..], a);
    }
  }

  // ---------------------------------------------------------------- how long the loop sleeps

  /** The timeout given to poll: -1 without timers. */
  function PollDelay(q: seq<Action>, now: int): int {
    if q == [] then -1 else if now < q[0].due then q[0].due - now else 0
  }

  /** The timeout fits an int; a turn right after it fires an action, and no turn before it does. */
  lemma SleepsExactly(r: Run, now: int, t: int)
    requires Inv(r) && r.clock <= now <= t && r.pending != []
    ensures 0 <= PollDelay(r.pending, now) <= INT_MAX
    ensures |Next(r, Turn(t)).fired| > |r.fired| <==> t >= now + PollDelay(r.pending, now)
  {
  }

  // ---------------------------------------------------------------- negative delays

  /** Without the rule on delays, a post leaves firing in order exactly when its deadline is not before one
      that has already fired.  A delay of at least 0 always meets this. */
  lemma PostInOrderExactly(r: Run, now: int, ms: int, cb: nat, data: nat)
    requires Inv(r) && r.clock <= now && r.fired != []
    ensures var last := r.fired[|r.fired| - 1].action;
      (forall t :: t >= now ==> Sorted(Fired(Next(Next(r, Post(now, ms, cb, data)), Turn(t)).fired)))
      <==> now + ms >= last.due
    ensures now >= r.fired[|r.fired| - 1].action.due
  {
    hide Inv;
    var last := r.fired[|r.fired| - 1].action;
    var a := Action(|r.posted|, now + ms, ms, cb, data);
    var s := Next(r, Post(now, ms, cb, data));
    LastFired(r);
    if now + ms >= last.due {
      InsertKeeps(Fired(r.fired), r.pending, a);
      forall t | t >= now ensures Sorted(Fired(Next(s, Turn(t)).fired)) {
        FiringSorted(s, t);
      }
    } else {
      var t := if now + ms > now then now + ms else now;
      assert Slot(r.pending, a.due) == 0;
      assert s.pending[0] == a;
      var u := Next(s, Turn(t));
      assert u.fired == r.fired + [Firing(a, t)];
      assert Fired(u.fired)[|r.fired| - 1] == last && Fired(u.fired)[|r.fired|] == a;
      assert !Before(last, a);
      assert !Sorted(Fired(u.fired));
    }
  }

  lemma LastFired(r: Run)
    requires Inv(r) && r.fired != []
    ensures var last := r.fired[|r.fired| - 1].action;
      && last.due <= r.clock && Sorted(Fired(r.fired) + r.pending)
      && (forall i :: 0 <= i < |r.fired| ==> Fired(r.fired)[i].due <= last.due && Fired(r.fired)[i].id < |r.posted|)
      && (forall i :: 0 <= i < |r.pending| ==> last.due <= r.pending[i].due && r.pending[i].id < |r.posted|)
  {
    var last, w := r.fired[|r.fired| - 1].action, Fired(r.fired) + r.pending;
    assert w[|r.fired| - 1] == last;
    forall i | 0 <= i < |r.fired| ensures Fired(r.fired)[i].due <= last.due {
      assert i < |r.fired| - 1 ==> Before(w[i], w[|r.fired| - 1]);
    }
    forall i | 0 <= i < |r.pending| ensures last.due <= r.pending[i].due {
      assert Before(w[|r.fired| - 1], w[|r.fired| + i]);
    }
  }

  lemma FiringSorted(s: Run, t: int)
    requires Sorted(Fired(s.fired) + s.pending)
    ensures Sorted(Fired(Next(s, Turn(t)).fired))
  {
    var f := Fired(Next(s, Turn(t)).fired);
    var w := Fired(s.fired) + s.pending;
    assert forall i :: 0 <= i < |f| ==> f[i] == w[i];
  }
}
