/** The doubly linked list of waiting select calls.  Its two operations are the insertion at the head
    and the removal that `sal_select` performs under the lock; the step system of module SalSelect
    uses their effect on the sequence of waiters. */
module SalSelectList {
  import opened SalSelect

  class SelectCb {
    var next: SelectCb?
    var prev: SelectCb?

    constructor ()
      ensures next == null && prev == null
    {
      next, prev := null, null;
    }
  }

  class WaiterList {
    var head: SelectCb?
    ghost var waiters: seq<SelectCb>

    ghost predicate Linked(i: nat)
      requires i < |waiters|
      reads `waiters, waiters
    {
      && waiters[i].next == (if i + 1 < |waiters| then waiters[i + 1] else null)
      && waiters[i].prev == (if i > 0 then waiters[i - 1] else null)
    }

    ghost predicate Valid()
      reads this, waiters
    {
      && (forall i, j :: 0 <= i < j < |waiters| ==> waiters[i] != waiters[j])
      && head == (if waiters == [] then null else waiters[0])
      && (forall i :: 0 <= i < |waiters| ==> Linked(i))
    }

    constructor ()
      ensures Valid() && waiters == []
    {
      head, waiters := null, [];
    }

    /** Put cb on top of the list. */
    method Link(cb: SelectCb)
      requires Valid() && cb !in waiters && cb.prev == null
      modifies this, cb, waiters
      ensures Valid() && waiters == [cb] + old(waiters)
    {
      assert waiters != [] ==> Linked(0);
      cb.next := head;
      if head != null {
        head.prev := cb;
      }
      head := cb;
      waiters := [cb] + waiters;
      forall i | 0 <= i < |waiters| ensures Linked(i) {
        assert i > 0 ==> old(Linked(i - 1));
      }
    }

    /** Take cb off the list; the two assertions of the program hold on the way. */
    method Unlink(cb: SelectCb)
      requires Valid() && cb in waiters
      modifies this, waiters
      ensures Valid() && waiters == Without(old(waiters), cb)
    {
      hide Without, Position;
      ghost var k := Position(waiters, cb);
      WithoutAt(waiters, cb, k);
      assert Linked(k);
      assert k + 1 < |waiters| ==> Linked(k + 1);
      if cb.next != null {
        cb.next.prev := cb.prev;
      }
      if head == cb {
        assert cb.prev == null;
        head := cb.next;
      } else {
        assert k > 0;
        assert cb.prev != null;
        cb.prev.next := cb.next;
      }
      ghost var was := waiters;
      waiters := was[..k] + was[k + 1..];
      CutAt(was, waiters, k);
      forall i | 0 <= i < |waiters| ensures Linked(i) {
        if i < k {
          assert old(Linked(i));
        } else {
          assert old(Linked(i + 1));
        }
      }
    }
  }

  lemma CutAt(was: seq<SelectCb>, s: seq<SelectCb>, k: nat)
    requires k < |was| && s == was[..k] + was[k + 1..]
    ensures |s| == |was| - 1 && forall i :: 0 <= i < |s| ==> s[i] == was[if i < k then i else i + 1]
  {
  }

  lemma {:induction false} WithoutAt<T>(list: seq<T>, x: T, k: nat)
    requires k < |list| && list[k] == x
    requires forall i, j :: 0 <= i < j < |list| ==> list[i] != list[j]
    ensures Without(list, x) == list[..k] + list[k + 1..]
  {
    if k > 0 {
      WithoutAt(list[1..], x, k - 1);
      assert list[0] != x;
      assert list[..k] == [list[0]] + list[1..][..k - 1];
      assert list[k + 1..] == list[1..][k..];
    }
  }
}
