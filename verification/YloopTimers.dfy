/** The timer list of the event loop: timeouts in a circular doubly linked list around a sentinel. */
module YloopTimers {
  import opened Wrappers
  import opened YloopRuns

  const EINVAL := 22
  const ENOMEM := 12

  /** A timeout with its list links; the sentinel is one too. */
  class Timeout {
    var prev: Timeout
    var next: Timeout
    const timeoutMs: int
    const ms: int
    const cb: nat
    const data: nat
    ghost const id: nat

    /** dlist_init */
    constructor (timeoutMs: int, ms: int, cb: nat, data: nat, ghost id: nat)
      ensures prev == this && next == this
      ensures this.timeoutMs == timeoutMs && this.ms == ms && this.cb == cb && this.data == data && this.id == id
    {
      prev := this;
      next := this;
      this.timeoutMs := timeoutMs;
      this.ms := ms;
      this.cb := cb;
      this.data := data;
      this.id := id;
    }

    ghost function Value(): Action {
      Action(id, timeoutMs, ms, cb, data)
    }
  }

  ghost function Actions(list: seq<Timeout>): (q: seq<Action>)
    ensures |q| == |list| && forall i :: 0 <= i < |list| ==> q[i] == list[i].Value()
  {
    seq(|list|, i requires 0 <= i < |list| => list[i].Value())
  }

  /** Walking around the ring: the sentinel, the timeouts in order, the sentinel again. */
  ghost function At(sentinel: Timeout, list: seq<Timeout>, i: nat): Timeout
    requires i <= |list| + 1
  {
    if 1 <= i <= |list| then list[i - 1] else sentinel
  }

  ghost predicate Distinct(sentinel: Timeout, list: seq<Timeout>) {
    forall i, j :: 0 <= i < j <= |list| ==> At(sentinel, list, i) != At(sentinel, list, j)
  }

  lemma InsertDistinct(sentinel: Timeout, list: seq<Timeout>, k: nat, node: Timeout)
    requires Distinct(sentinel, list) && k <= |list| && node != sentinel
    requires forall i :: 0 <= i < |list| ==> list[i] != node
    ensures Distinct(sentinel, list[..k] + [node] + list[k..])
  {
    var t := list[..k] + [node] + list[k..];
    forall i, j | 0 <= i < j <= |t| ensures At(sentinel, t, i) != At(sentinel, t, j) {
      assert At(sentinel, t, i)
           == if i <= k then At(sentinel, list, i) else if i == k + 1 then node else At(sentinel, list, i - 1);
      assert At(sentinel, t, j)
           == if j <= k then At(sentinel, list, j) else if j == k + 1 then node else At(sentinel, list, j - 1);
    }
  }

  lemma RemoveDistinct(sentinel: Timeout, list: seq<Timeout>, k: nat)
    requires Distinct(sentinel, list) && k < |list|
    ensures Distinct(sentinel, list[..k] + list[k + 1..])
  {
    var t := list[..k] + list[k + 1..];
    forall i, j | 0 <= i < j <= |t| ensures At(sentinel, t, i) != At(sentinel, t, j) {
      assert At(sentinel, t, i) == At(sentinel, list, if i <= k then i else i + 1);
      assert At(sentinel, t, j) == At(sentinel, list, if j <= k then j else j + 1);
    }
  }

  class Loop {
    const timeouts: Timeout
    ghost var list: seq<Timeout>
    ghost var posts: nat

    /** The links between the i-th place and the next. */
    ghost predicate Linked(i: nat)
      requires i <= |list|
      reads `list, timeouts, list
    {
      && At(timeouts, list, i).next == At(timeouts, list, i + 1)
      && At(timeouts, list, i + 1).prev == At(timeouts, list, i)
    }

    ghost predicate Valid()
      reads this, timeouts, list
    {
      Distinct(timeouts, list) && forall i :: 0 <= i <= |list| ==> Linked(i)
    }

    /** What waits, first to fire first. */
    ghost function Pending(): seq<Action>
      reads `list
    {
      Actions(list)
    }

    constructor ()
      ensures Valid() && Pending() == [] && posts == 0 && fresh(timeouts)
    {
      timeouts := new Timeout(0, 0, 0, 0, 0);
      list := [];
      posts := 0;
    }

    /** dlist_add_tail on the k-th place: in front of the k-th timeout, or of the sentinel. */
    method AddBefore(node: Timeout, queue: Timeout, ghost k: nat)
      requires Valid() && k <= |list| && queue == At(timeouts, list, k + 1)
      requires node != timeouts && forall i :: 0 <= i < |list| ==> list[i] != node
      modifies `list, node, timeouts, list
      ensures Valid() && list == old(list[..k]) + [node] + old(list[k..])
    {
      ghost var before := list;
      assert Linked(k);
      var prev := queue.prev;
      node.next := queue;
      node.prev := prev;
      prev.next := node;
      queue.prev := node;
      list := list[..k] + [node] + list[k..];
      InsertDistinct(timeouts, before, k, node);
      forall i | 0 <= i <= |list| ensures Linked(i) {
        assert i < k ==> old(Linked(i));
        assert i > k + 1 ==> old(Linked(i - 1));
      }
    }

    /** dlist_del of the k-th timeout. */
    method Delete(node: Timeout, ghost k: nat)
      requires Valid() && k < |list| && node == list[k]
      modifies `list, timeouts, list
      ensures Valid() && list == old(list[..k]) + old(list[k + 1..])
    {
      ghost var before := list;
      assert Linked(k) && Linked(k + 1);
      var prev := node.prev;
      var next := node.next;
      prev.next := next;
      next.prev := prev;
      list := list[..k] + list[k + 1..];
      RemoveDistinct(timeouts, before, k);
      forall i | 0 <= i <= |list| ensures Linked(i) {
        assert i < k ==> old(Linked(i));
        assert i > k ==> old(Linked(i + 1));
      }
    }

    /** The search of aos_post_delayed_action: the first timeout that is due strictly later, or the sentinel. */
    method FindLater(due: int) returns (tmp: Timeout, ghost k: nat)
      requires Valid()
      ensures k == Slot(Pending(), due) && tmp == At(timeouts, list, k + 1)
    {
      hide Slot, Distinct;
      assert Linked(0);
      tmp, k := timeouts.next, 0;
      AtPlace(timeouts, list, k);
      assert Pending()[0..] == Pending();
      while tmp != timeouts
        invariant k <= |list| && tmp == At(timeouts, list, k + 1)
        invariant tmp == timeouts <==> k == |list|
        invariant Slot(Pending(), due) == k + Slot(Pending()[k..], due)
        decreases |list| - k
      {
        AtPlace(timeouts, list, k);
        SlotStep(Pending(), k, due);
        if due < tmp.timeoutMs {
          return;
        }
        assert Linked(k + 1);
        tmp := tmp.next;
        k := k + 1;
        AtPlace(timeouts, list, k);
      }
      SlotStep(Pending(), k, due);
    }

    /** aos_post_delayed_action at clock reading `now`; no callback is a null action. */
    method Post(now: int, ms: int, action: Option<nat>, param: nat) returns (code: int)
      requires Valid()
      modifies this, timeouts, list
      ensures Valid() && forall i :: 0 <= i < |list| ==> list[i] in old(list) || fresh(list[i])
      ensures action == None ==> code == -EINVAL
      ensures code == 0 || code == -ENOMEM || action == None
      ensures code != 0 ==> Pending() == old(Pending())
      ensures code == 0 ==>
        Pending() == Insert(old(Pending()), Action(old(posts), now + ms, ms, action.value, param))
      ensures posts == old(posts) + (if code == 0 then 1 else 0)
    {
      hide Slot, Distinct, Actions;
      if action == None {
        return -EINVAL;
      }
      if * {
        return -ENOMEM;
      }
      var timeout := new Timeout(now + ms, ms, action.value, param, posts);
      var tmp, k := FindLater(timeout.timeoutMs);
      ActionsInserted(list, k, timeout);
      posts := posts + 1;
      AddBefore(timeout, tmp, k);
      return 0;
    }

    /** The search of both cancels; the exact one also compares the argument. */
    method FindMatch(ms: int, cb: nat, arg: Option<nat>) returns (tmp: Timeout, ghost k: nat)
      requires Valid()
      ensures k == Find(Pending(), ms, cb, arg) && tmp == At(timeouts, list, k + 1)
      ensures tmp == timeouts <==> k == |list|
    {
      hide Find, Distinct;
      assert Linked(0);
      tmp, k := timeouts.next, 0;
      AtPlace(timeouts, list, k);
      assert Pending()[0..] == Pending();
      while tmp != timeouts
        invariant k <= |list| && tmp == At(timeouts, list, k + 1)
        invariant tmp == timeouts <==> k == |list|
        invariant Find(Pending(), ms, cb, arg) == k + Find(Pending()[k..], ms, cb, arg)
        decreases |list| - k
      {
        AtPlace(timeouts, list, k);
        FindStep(Pending(), k, ms, cb, arg);
        if (ms == -1 || tmp.ms == ms) && tmp.cb == cb && (arg.Some? ==> tmp.data == arg.value) {
          return;
        }
        assert Linked(k + 1);
        tmp := tmp.next;
        k := k + 1;
        AtPlace(timeouts, list, k);
      }
      FindStep(Pending(), k, ms, cb, arg);
    }

    /** aos_cancel_delayed_action, and with no argument aos_cancel_delayed_action_loose. */
    method Cancel(ms: int, cb: nat, arg: Option<nat>)
      requires Valid()
      modifies this, timeouts, list
      ensures Valid() && forall i :: 0 <= i < |list| ==> list[i] in old(list)
      ensures Pending() == Remove(old(Pending()), Find(old(Pending()), ms, cb, arg))
      ensures posts == old(posts)
    {
      hide Find, Distinct;
      var tmp, k := FindMatch(ms, cb, arg);
      if tmp == timeouts {
        return;
      }
      Delete(tmp, k);
    }

    /** The delay for poll, from the first clock reading of a turn. */
    method Delay(now: int) returns (delayedMs: int)
      requires Valid()
      ensures delayedMs == PollDelay(Pending(), now)
    {
      assert Linked(0);
      AtPlace(timeouts, list, 0);
      delayedMs := -1;
      if timeouts.next != timeouts {
        var tmo := timeouts.next;
        delayedMs := if now < tmo.timeoutMs then tmo.timeoutMs - now else 0;
      }
    }

    /** The timer part of a turn after poll: at most the first timeout is taken off, before its callback runs. */
    method Turn(now: int) returns (call: Option<(nat, nat)>)
      requires Valid()
      modifies this, timeouts, list
      ensures Valid() && posts == old(posts) && forall i :: 0 <= i < |list| ==> list[i] in old(list)
      ensures var q := old(Pending());
        if q != [] && q[0].due <= now
        then Pending() == q[1..] && call == Some((q[0].cb, q[0].data))
        else Pending() == q && call == None
    {
      hide Distinct;
      assert Linked(0);
      AtPlace(timeouts, list, 0);
      call := None;
      if timeouts.next != timeouts {
        var tmo := timeouts.next;
        if now >= tmo.timeoutMs {
          Delete(tmo, 0);
          call := Some((tmo.cb, tmo.data));
        }
      }
    }
  }

  lemma ActionsInserted(list: seq<Timeout>, k: nat, node: Timeout)
    requires k <= |list|
    ensures Actions(list[..k] + [node] + list[k..]) == Actions(list)[..k] + [node.Value()] + Actions(list)[k..]
  {
  }

  lemma AtPlace(sentinel: Timeout, list: seq<Timeout>, k: nat)
    requires Distinct(sentinel, list) && k <= |list|
    ensures At(sentinel, list, k + 1) == sentinel <==> k == |list|
    ensures At(sentinel, list, 0) == sentinel
    ensures k < |list| ==> At(sentinel, list, k + 1) == list[k]
  {
    if k < |list| {
      assert At(sentinel, list, 0) != At(sentinel, list, k + 1);
    }
  }

  lemma SlotStep(q: seq<Action>, k: nat, due: int)
    requires k <= |q|
    ensures k == |q| || due < q[k].due ==> Slot(q[k..], due) == 0
    ensures k < |q| && due >= q[k].due ==> Slot(q[k..], due) == 1 + Slot(q[k + 1..], due)
  {
    assert k < |q| ==> q[k..][1..] == q[k + 1..];
  }

  lemma FindStep(q: seq<Action>, k: nat, ms: int, cb: nat, arg: Option<nat>)
    requires k <= |q|
    ensures k == |q| || Matches(q[k], ms, cb, arg) ==> Find(q[k..], ms, cb, arg) == 0
    ensures k < |q| && !Matches(q[k], ms, cb, arg) ==> Find(q[k..], ms, cb, arg) == 1 + Find(q[k + 1..], ms, cb, arg)
  {
    assert k < |q| ==> q[k..][1..] == q[k + 1..];
  }

  // ---------------------------------------------------------------- the list over a run

  lemma {:induction false} ExecOneMore(r: Run, es: seq<Event>, e: Event)
    ensures Exec(r, es + [e]) == Next(Exec(r, es), e)
    decreases |es|
  {
    hide Next;
    if es == [] {
      assert es + [e] == [e];
      assert [e][1..] == [];
    } else {
      assert (es + [e])[1..] == es[1..] + [e];
      ExecOneMore(Next(r, es[0]), es[1..], e);
    }
  }

  /** The events without the posts that found no memory. */
  function Accepted(es: seq<Event>, refused: seq<bool>): seq<Event>
    requires |refused| == |es|
  {
    if es == [] then []
    else
      var n := |es| - 1;
      Accepted(es[..n], refused[..n]) + if refused[n] then [] else [es[n]]
  }

  function Calls(fs: seq<Firing>): seq<(nat, nat)> {
    seq(|fs|, i requires 0 <= i < |fs| => (fs[i].action.cb, fs[i].action.data))
  }

  /** The list is that of a run. */
  ghost predicate Follows(context: Loop, r: Run)
    reads context, context.timeouts, context.list
  {
    context.Valid() && context.Pending() == r.pending && context.posts == |r.posted|
  }

  /** One event on the linked list; a post may be refused. */
  method DriveOne(context: Loop, ghost r: Run, e: Event) returns (refused: bool, call: Option<(nat, nat)>)
    requires Follows(context, r)
    modifies context, context.timeouts, context.list
    ensures forall i :: 0 <= i < |context.list| ==> context.list[i] in old(context.list) || fresh(context.list[i])
    ensures refused ==> e.Post?
    ensures Follows(context, if refused then r else Next(r, e))
    ensures call == if e.Turn? && r.pending != [] && r.pending[0].due <= e.now
                    then Some((r.pending[0].cb, r.pending[0].data)) else None
  {
    hide Insert, Find, Distinct;
    refused, call := false, None;
    match e {
      case Post(now, ms, cb, data) =>
        var code := context.Post(now, ms, Some(cb), data);
        refused := code != 0;
      case Cancel(ms, cb, arg) =>
        context.Cancel(ms, cb, arg);
      case Turn(now) =>
        call := context.Turn(now);
    }
  }

  /** Any sequence of posts, cancels and turns on the linked list: what is pending, and which callbacks were
      called with what in which order, is what the run over the accepted events says. */
  method Drive(start: int, es: seq<Event>) returns (context: Loop, refused: seq<bool>, calls: seq<(nat, nat)>)
    ensures |refused| == |es| && forall i :: 0 <= i < |es| && refused[i] ==> es[i].Post?
    ensures context.Valid() && context.Pending() == Exec(Start(start), Accepted(es, refused)).pending
    ensures calls == Calls(Exec(Start(start), Accepted(es, refused)).fired)
  {
    hide Exec, Next, Accepted, Calls, Follows;
    context := new Loop();
    refused, calls := [], [];
    NoEvents(start);
    ghost var r := Start(start);
    NewFollows(context, start);
    var i := 0;
    while i < |es|
      invariant 0 <= i <= |es| && fresh(context) && fresh(context.timeouts) && AllFresh(context.list)
      invariant |refused| == i && forall j :: 0 <= j < i && refused[j] ==> es[j].Post?
      invariant Follows(context, r) && r == Exec(Start(start), Accepted(es[..i], refused)) && calls == Calls(r.fired)
    {
      ExecOneMore(Start(start), Accepted(es[..i], refused), es[i]);
      CallsOneMore(r, es[i]);
      var no, call := DriveOne(context, r, es[i]);
      AcceptedOneMore(es, refused, no);
      assert Accepted(es[..i], refused) + [] == Accepted(es[..i], refused);
      r := if no then r else Next(r, es[i]);
      if call.Some? {
        calls := calls + [call.value];
      }
      refused := refused + [no];
      i := i + 1;
    }
    assert es[..i] == es;
    FollowsPending(context, r);
  }

  lemma FollowsPending(context: Loop, r: Run)
    requires Follows(context, r)
    ensures context.Valid() && context.Pending() == r.pending
  {
  }

  lemma NewFollows(context: Loop, start: int)
    requires context.Valid() && context.Pending() == [] && context.posts == 0
    ensures Follows(context, Start(start))
  {
  }

  lemma AcceptedOneMore(es: seq<Event>, refused: seq<bool>, no: bool)
    requires |refused| < |es|
    ensures var i := |refused|;
      Accepted(es[..i + 1], refused + [no]) == Accepted(es[..i], refused) + if no then [] else [es[i]]
  {
    var i := |refused|;
    assert es[..i + 1][..i] == es[..i] && es[..i + 1][i] == es[i];
    assert (refused + [no])[..i] == refused && (refused + [no])[i] == no;
  }

  lemma CallsOneMore(r: Run, e: Event)
    ensures Calls(Next(r, e).fired)
         == Calls(r.fired)
          + if e.Turn? && r.pending != [] && r.pending[0].due <= e.now
            then [(r.pending[0].cb, r.pending[0].data)] else []
  {
  }

  twostate predicate AllFresh(new list: seq<Timeout>) {
    forall i :: 0 <= i < |list| ==> fresh(list[i])
  }

  lemma NoEvents(start: int)
    ensures Exec(Start(start), Accepted([], [])) == Start(start) && Calls([]) == []
  {
  }
}
