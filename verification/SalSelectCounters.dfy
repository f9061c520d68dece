/** What the counters of a socket count, over every run: the events delivered on it, in the width of each counter. */
module SalSelectCounters {
  import opened SalSelect

  /** How many deliveries of evt there have been on socket s. */
  ghost function Delivered(acts: seq<Action>, s: int, evt: Event): nat {
    if acts == [] then 0
    else
      var pre, a := acts[..|acts| - 1], acts[|acts| - 1];
      Delivered(pre, s, evt) +
      if a.Deliver? && a.fd == s && a.evt == evt && s in Exec(pre).socks && a.w !in Exec(pre).walks then 1 else 0
  }

  /** 1 for a socket opened as writable, 0 for another. */
  ghost function RoomAtFirst(acts: seq<Action>, s: int): nat {
    if acts == [] then 0
    else
      var pre, a := acts[..|acts| - 1], acts[|acts| - 1];
      if a == Open(s, true) && s !in Exec(pre).socks then 1 else RoomAtFirst(pre, s)
  }

  ghost predicate Tells(acts: seq<Action>, s: int)
    requires s in Exec(acts).socks
  {
    var k := Exec(acts).socks[s];
    && k.rcvevent == Int16(Delivered(acts, s, RcvPlus) - Delivered(acts, s, RcvMinus))
    && k.sendevent == (RoomAtFirst(acts, s) + Delivered(acts, s, SendPlus) - Delivered(acts, s, SendMinus)) % 0x1_0000
    && k.errevent == if Delivered(acts, s, Error) > 0 then 1 else 0
  }

  ghost predicate SameCounters(k: Sock, k': Sock) {
    k.rcvevent == k'.rcvevent && k.sendevent == k'.sendevent && k.errevent == k'.errevent
  }

  lemma AdvanceKeepsCounters(st: State, id: Id, s: int)
    requires id in st.calls && s in st.socks
    ensures var st' := AdvanceCall(st, id); s in st'.socks && SameCounters(st'.socks[s], st.socks[s])
  {
    hide Found, Without, Call.Watches;
  }

  lemma CountersMove(st: State, a: Action, s: int)
    requires s in st.socks
    ensures s in Step(st, a).socks
    ensures SameCounters(Step(st, a).socks[s],
      if a.Deliver? && a.fd == s && a.w !in st.walks then Bump(st.socks[s], a.evt) else st.socks[s])
  {
    hide AdvanceCall, Position, Test, Bump;
    if a.Advance? && a.id in st.calls {
      AdvanceKeepsCounters(st, a.id, s);
    }
  }

  lemma NewSocket(st: State, a: Action, s: int)
    requires s !in st.socks && s in Step(st, a).socks
    ensures a.Open? && a.fd == s && Step(st, a).socks[s] == Sock(0, if a.writable then 1 else 0, 0, false, 0)
  {
    hide Found, Without, Position, Test, Bump;
  }

  lemma Shifted(y: int, k: int)
    ensures (y + k * 0x1_0000) % 0x1_0000 == y % 0x1_0000
  {
  }

  /** Cutting to 16 bits before adding changes nothing. */
  lemma CutBefore(x: int, d: int)
    ensures (x % 0x1_0000 + d) % 0x1_0000 == (x + d) % 0x1_0000
  {
    Shifted(x % 0x1_0000 + d, x / 0x1_0000);
  }

  lemma Wraps(x: int, d: int)
    ensures Int16(Int16(x) + d) == Int16(x + d)
  {
    CutBefore(x + 0x8000, d);
  }

  lemma {:induction false} NoneDelivered(acts: seq<Action>, s: int, evt: Event)
    requires s !in Exec(acts).socks
    ensures Delivered(acts, s, evt) == 0 && RoomAtFirst(acts, s) == 0
    decreases |acts|
  {
    hide Step;
    if acts != [] {
      var pre, a := acts[..|acts| - 1], acts[|acts| - 1];
      if s in Exec(pre).socks {
        CountersMove(Exec(pre), a, s);
        assert false;
      }
      NoneDelivered(pre, s, evt);
      if a == Open(s, true) {
        OpensSocket(Exec(pre), s);
      }
    }
  }

  lemma OpensSocket(st: State, s: int)
    ensures s in Step(st, Open(s, true)).socks
  {
  }

  /** After every run the counters a delivery and a scan look at are the events delivered, in their widths. */
  lemma {:induction false} CountersTell(acts: seq<Action>, s: int)
    requires s in Exec(acts).socks
    ensures Tells(acts, s)
    decreases |acts|
  {
    hide Step, Int16;
    if acts != [] {
      var pre, a := acts[..|acts| - 1], acts[|acts| - 1];
      if s in Exec(pre).socks {
        CountersTell(pre, s);
        CountersMove(Exec(pre), a, s);
        Wraps(Delivered(pre, s, RcvPlus) - Delivered(pre, s, RcvMinus), 1);
        Wraps(Delivered(pre, s, RcvPlus) - Delivered(pre, s, RcvMinus), -1);
        CutBefore(RoomAtFirst(pre, s) + Delivered(pre, s, SendPlus) - Delivered(pre, s, SendMinus), 1);
        CutBefore(RoomAtFirst(pre, s) + Delivered(pre, s, SendPlus) - Delivered(pre, s, SendMinus), -1);
      } else {
        NewSocket(Exec(pre), a, s);
        forall evt ensures Delivered(pre, s, evt) == 0 {
          NoneDelivered(pre, s, evt);
        }
        NoneDelivered(pre, s, RcvPlus);
        assert Int16(0) == 0 by {
          Zero();
        }
      }
    }
  }

  lemma Zero()
    ensures Int16(0) == 0
  {
  }
}
