/** cJSONUtils_SortList on linked items: the recursion splits the list in place and merges by relinking.
    It neither needs nor restores the head's `prev`. */
module CjsonSort {
  import opened CjsonKeys
  import opened CjsonList

  /** The walk that tests for a sorted list. */
  method IsIncreasing(list: Item, ghost s: seq<Item>) returns (yes: bool)
    requires Chain(list, s)
    ensures yes <==> Increasing(KeyOf, s)
  {
    var ptr := list;
    ghost var k := 0;
    while ptr.next != null && Compare(ptr.key, ptr.next.key) < 0
      invariant 0 <= k < |s| && ptr == s[k]
      invariant forall i :: 0 <= i < k ==> Compare(KeyOf(s[i]), KeyOf(s[i + 1])) < 0
      decreases |s| - k
    {
      ptr := ptr.next;
      k := k + 1;
    }
    yes := ptr.next == null;
    if !yes {
      assert k < |s| - 1;
      assert Compare(KeyOf(s[k]), KeyOf(s[k + 1])) >= 0;
    }
  }

  /** Two pointers, one going twice as fast, find the middle. */
  method Middle(list: Item, ghost s: seq<Item>) returns (second: Item)
    requires Chain(list, s) && |s| >= 2
    ensures second == s[(|s| + 1) / 2]
  {
    var slow: Item?, ptr: Item? := list, list;
    ghost var k, p := 0, 0;
    while ptr != null
      invariant 0 <= k < |s| && slow == s[k]
      invariant p == (if 2 * k < |s| then 2 * k else |s|) && k <= (|s| + 1) / 2
      invariant ptr == if p < |s| then s[p] else null
      decreases |s| - p
    {
      assert k + 1 < |s|;
      slow := slow.next;
      k := k + 1;
      ptr := ptr.next;
      if ptr != null {
        ptr := ptr.next;
        p := p + 2;
      } else {
        p := p + 1;
      }
    }
    second := slow;
  }

  // ---------------------------------------------------------------- merging

  /** Linked both ways between its first and its last item. */
  ghost predicate Segment(s: seq<Item>)
    reads s
  {
    && AllDiffer(s)
    && (forall i {:trigger s[i].next} :: 0 <= i < |s| - 1 ==> s[i].next == s[i + 1])
    && (forall i {:trigger s[i].prev} :: 1 <= i < |s| ==> s[i].prev == s[i - 1])
  }

  /** list and ptr are the first and the last item of s. */
  ghost predicate Ends(list: Item?, ptr: Item?, s: seq<Item>) {
    if s == [] then list == null && ptr == null else list == s[0] && ptr == s[|s| - 1]
  }

  /** Put x at the end of the merged list; its own next pointer is left alone. */
  method Append(list: Item?, ptr: Item?, x: Item, ghost s: seq<Item>) returns (list': Item?, ptr': Item?)
    requires Segment(s) && Ends(list, ptr, s) && x !in s
    modifies if ptr == null then {} else {ptr}, x
    ensures Segment(s + [x]) && Ends(list', ptr', s + [x])
    ensures list' != null && list' == if list == null then x else list
    ensures x.next == old(x.next)
    ensures list'.prev == old(list'.prev)
  {
    if list == null {
      return x, x;
    }
    ptr.next := x;
    x.prev := ptr;
    return list, x;
  }

  lemma ChainRest(head: Item, s: seq<Item>)
    requires Chain(head, s)
    ensures Chain(head.next, s[1..]) && head == s[0]
  {
  }

  ghost predicate Disjoint(s: seq<Item>, t: seq<Item>) {
    forall x :: x in s ==> x !in t
  }

  lemma DistinctConcat(s: seq<Item>, t: seq<Item>)
    requires AllDiffer(s) && AllDiffer(t) && Disjoint(s, t)
    ensures AllDiffer(s + t)
  {
    forall i, j | 0 <= i < j < |s + t| ensures (s + t)[i] != (s + t)[j] {
      if i < |s| <= j {
        assert s[i] in s && t[j - |s|] in t;
      }
    }
  }

  /** The rest of one list, hung on as it is. */
  method AppendRest(list: Item?, ptr: Item?, head: Item, ghost s: seq<Item>, ghost rest: seq<Item>)
    returns (list': Item?)
    requires Segment(s) && Ends(list, ptr, s) && Chain(head, rest) && Disjoint(s, rest)
    modifies if ptr == null then {} else {ptr}, head
    ensures Chain(list', s + rest)
    ensures list' == if list != null then list else head
    ensures list'.prev == old(list'.prev)
  {
    if list == null {
      assert s + rest == rest;
      return head;
    }
    ghost var all := s + rest;
    assert forall i :: 0 <= i < |all| ==> all[i] == if i < |s| then s[i] else rest[i - |s|];
    DistinctConcat(s, rest);
    assert ptr in s && head in rest;
    ptr.next := head;
    head.prev := ptr;
    list' := list;
  }

  /** Taking the smaller head is one step of the merge. */
  lemma MergeStep(s: seq<Item>, a: seq<Item>, b: seq<Item>)
    requires a != [] && b != []
    ensures Compare(a[0].key, b[0].key) < 0 ==> s + Merge(KeyOf, a, b) == s + [a[0]] + Merge(KeyOf, a[1..], b)
    ensures Compare(a[0].key, b[0].key) >= 0 ==> s + Merge(KeyOf, a, b) == s + [b[0]] + Merge(KeyOf, a, b[1..])
  {
    if Compare(a[0].key, b[0].key) < 0 {
      assert s + ([a[0]] + Merge(KeyOf, a[1..], b)) == s + [a[0]] + Merge(KeyOf, a[1..], b);
    } else {
      assert s + ([b[0]] + Merge(KeyOf, a, b[1..])) == s + [b[0]] + Merge(KeyOf, a, b[1..]);
    }
  }

  lemma MergeEnd(a: seq<Item>, b: seq<Item>)
    requires a == [] || b == []
    ensures Merge(KeyOf, a, b) == a + b
  {
  }

  ghost predicate Within(s: seq<Item>, t: seq<Item>) {
    forall x :: x in s ==> x in t
  }

  lemma WithinHead(s: seq<Item>, t: seq<Item>)
    requires Within(s, t)
    ensures s != [] ==> s[0] in t && Within(s[1..], t)
  {
  }

  lemma WithinTrans(s: seq<Item>, t: seq<Item>, u: seq<Item>)
    requires Within(s, t) && Within(t, u)
    ensures Within(s, u)
  {
  }

  /** In the middle of merging: s is linked up from list to ptr, a and b are still to come. */
  ghost predicate Merging(list: Item?, ptr: Item?, first: Item?, second: Item?,
                          s: seq<Item>, a: seq<Item>, b: seq<Item>)
    reads s, a, b
  {
    && Segment(s) && Ends(list, ptr, s) && Chain(first, a) && Chain(second, b)
    && Disjoint(s, a) && Disjoint(s, b) && Disjoint(a, b)
  }

  /** Move the head of one list to the end of the merged list. */
  method TakeHead(list: Item?, ptr: Item?, first: Item, second: Item?,
                  ghost s: seq<Item>, ghost a: seq<Item>, ghost b: seq<Item>)
    returns (list': Item?, ptr': Item?, first': Item?)
    requires Merging(list, ptr, first, second, s, a, b)
    modifies if ptr == null then {} else {ptr}, first
    ensures a != [] && first == a[0]
    ensures Merging(list', ptr', first', second, s + [first], a[1..], b)
    ensures ptr' == first
    ensures list' != null && list'.prev == old(list'.prev)
    ensures list' == if list == null then first else list
  {
    assert first in a && (ptr != null ==> ptr in s);
    ChainRest(first, a);
    HeadApart(s, a, b);
    ghost var rest := a[1..];
    hide Disjoint;
    list', ptr' := Append(list, ptr, first, s);
    first' := first.next;
    assert Chain(first', rest);
  }

  /** The head of a chain is none of the items behind it, nor of the other sequences. */
  lemma HeadApart(s: seq<Item>, a: seq<Item>, b: seq<Item>)
    requires a != [] && AllDiffer(a) && Disjoint(s, a) && Disjoint(s, b) && Disjoint(a, b)
    ensures a[0] !in a[1..] && a[0] !in s && a[0] !in b
    ensures forall x :: x in s ==> x !in a[1..] && x !in b
    ensures Disjoint(s + [a[0]], a[1..]) && Disjoint(s + [a[0]], b) && Disjoint(a[1..], b)
  {
    assert a == [a[0]] + a[1..];
    assert a[0] in a;
  }

  lemma MergingHeads(list: Item?, ptr: Item?, first: Item?, second: Item?,
                     s: seq<Item>, a: seq<Item>, b: seq<Item>)
    requires Merging(list, ptr, first, second, s, a, b)
    ensures first == (if a == [] then null else a[0]) && second == (if b == [] then null else b[0])
    ensures list == null <==> s == []
    ensures Merging(list, ptr, second, first, s, b, a)
  {
  }

  /** One turn of the merge loop. */
  method MergeOne(list: Item?, ptr: Item?, first: Item, second: Item,
                  ghost s: seq<Item>, ghost a: seq<Item>, ghost b: seq<Item>)
    returns (list': Item?, ptr': Item?, first': Item?, second': Item?,
             ghost s': seq<Item>, ghost a': seq<Item>, ghost b': seq<Item>)
    requires Merging(list, ptr, first, second, s, a, b)
    modifies if ptr == null then {} else {ptr}, first, second
    ensures Merging(list', ptr', first', second', s', a', b')
    ensures s' + Merge(KeyOf, a', b') == s + Merge(KeyOf, a, b)
    ensures s' != [] && (a' != [] || b' != [])
    ensures (a' == a[1..] && b' == b) || (a' == a && b' == b[1..])
    ensures a != [] && b != [] && (ptr' == first || ptr' == second)
    ensures list' == if list == null then ptr' else list
    ensures list' != null && list'.prev == old(list'.prev)
  {
    hide Merge, Compare, Merging;
    MergingHeads(list, ptr, first, second, s, a, b);
    MergeStep(s, a, b);
    if Compare(first.key, second.key) < 0 {
      list', ptr', first' := TakeHead(list, ptr, first, second, s, a, b);
      second' := second;
      s', a', b' := s + [first], a[1..], b;
    } else {
      list', ptr', second' := TakeHead(list, ptr, second, first, s, b, a);
      first' := first;
      s', a', b' := s + [second], a, b[1..];
      MergingHeads(list', ptr', second', first', s', b', a');
    }
  }

  /** Hang on what is left of the one list that is not used up. */
  method Finish(list: Item?, ptr: Item?, first: Item?, second: Item?,
                ghost s: seq<Item>, ghost a: seq<Item>, ghost b: seq<Item>)
    returns (list': Item?)
    requires Merging(list, ptr, first, second, s, a, b) && (first == null || second == null)
    requires s == [] || a != [] || b != []
    modifies (if ptr == null then {} else {ptr}),
             (if first == null then {} else {first}), (if second == null then {} else {second})
    ensures Chain(list', s + Merge(KeyOf, a, b))
    ensures list' == if list != null then list else if first != null then first else second
    ensures list' != null ==> list'.prev == old(list'.prev)
  {
    MergeEnd(a, b);
    list' := list;
    if first != null {
      assert a + b == a;
      list' := AppendRest(list', ptr, first, s, a);
    }
    if second != null {
      assert a + b == b;
      list' := AppendRest(list', ptr, second, s, b);
    }
  }

  lemma MergingStart(head1: Item?, head2: Item?, a: seq<Item>, b: seq<Item>)
    requires Chain(head1, a) && Chain(head2, b) && Disjoint(a, b)
    ensures Merging(null, null, head1, head2, [], a, b) && Within(a, a) && Within(b, b)
    ensures [] + Merge(KeyOf, a, b) == Merge(KeyOf, a, b)
  {
  }

  /** Merging two linked lists by relinking their items; nothing is written to the prev of the head. */
  method MergeLists(head1: Item?, head2: Item?, ghost a: seq<Item>, ghost b: seq<Item>) returns (list: Item?)
    requires Chain(head1, a) && Chain(head2, b) && Disjoint(a, b)
    modifies a, b
    ensures Chain(list, Merge(KeyOf, a, b))
    ensures list == head1 || list == head2
    ensures list != null ==> list.prev == old(list.prev)
  {
    hide Merge, Compare, Merging, Chain, Segment, Disjoint, Within;
    var first, second := head1, head2;
    var ptr: Item? := null;
    list := null;
    ghost var s: seq<Item>, a', b' := [], a, b;
    MergingStart(head1, head2, a, b);
    MergingHeads(list, ptr, first, second, s, a', b');
    while first != null && second != null
      invariant Merging(list, ptr, first, second, s, a', b')
      invariant s == [] || a' != [] || b' != []
      invariant s + Merge(KeyOf, a', b') == Merge(KeyOf, a, b)
      invariant ptr == null || ptr in a || ptr in b
      invariant Within(a', a) && Within(b', b)
      invariant list == null ==> first == head1 && second == head2
      invariant list != null ==> list == head1 || list == head2
      invariant list != null ==> list.prev == old(list.prev)
      invariant list == null && head1 != null ==> head1.prev == old(head1.prev)
      invariant list == null && head2 != null ==> head2.prev == old(head2.prev)
      decreases |a'| + |b'|
    {
      MergingHeads(list, ptr, first, second, s, a', b');
      WithinHead(a', a);
      WithinHead(b', b);
      list, ptr, first, second, s, a', b' := MergeOne(list, ptr, first, second, s, a', b');
    }
    MergingHeads(list, ptr, first, second, s, a', b');
    WithinHead(a', a);
    WithinHead(b', b);
    list := Finish(list, ptr, first, second, s, a', b');
  }

  // ---------------------------------------------------------------- the sort

  /** Cut the list in front of second; the first half loses its tail link, and second keeps a stale prev. */
  method Split(list: Item, second: Item, ghost s: seq<Item>, ghost h: nat)
    requires Chain(list, s) && 0 < h < |s| && second == s[h]
    modifies s
    ensures Chain(list, s[..h]) && Chain(second, s[h..])
    ensures list in s && list.prev == old(list.prev) && second.prev == old(second.prev)
  {
    if second.prev != null {
      second.prev.next := null;
    }
  }

  /** cJSONUtils_SortList: the relinked items are the sorted sequence, for any stale prev of the head. */
  method SortList(list: Item?, ghost s: seq<Item>) returns (r: Item?)
    requires Chain(list, s)
    modifies s
    ensures Chain(r, Sort(KeyOf, s))
    ensures r != null ==> r in s && r.prev == old(r.prev)
    decreases |s|, 2
  {
    if list == null || list.next == null {
      return list;
    }
    var yes := IsIncreasing(list, s);
    if yes {
      return list;
    }
    r := SortUnordered(list, s);
  }

  method SortUnordered(list: Item, ghost s: seq<Item>) returns (r: Item?)
    requires Chain(list, s) && |s| >= 2 && !Increasing(KeyOf, s)
    modifies s
    ensures Chain(r, Sort(KeyOf, s))
    ensures r in s && r.prev == old(r.prev)
    decreases |s|, 1
  {
    hide Sort, Increasing, Merge;
    ghost var h := (|s| + 1) / 2;
    SortSplits(s);
    var second := Middle(list, s);
    Split(list, second, s, h);
    hide Chain;
    var first;
    first, second := SortHalves(list, second, s, h);
    ghost var a, b := Sort(KeyOf, s[..h]), Sort(KeyOf, s[h..]);
    assert first in s && second in s;
    assert (forall i :: 0 <= i < |a| ==> a[i] in s) && forall i :: 0 <= i < |b| ==> b[i] in s;
    hide Disjoint, AllDiffer, Within;
    r := MergeLists(first, second, a, b);
  }

  method SortHalves(list: Item, second: Item, ghost s: seq<Item>, ghost h: nat) returns (r1: Item?, r2: Item?)
    requires AllDiffer(s) && 0 < h < |s| && Chain(list, s[..h]) && Chain(second, s[h..])
    modifies s
    ensures Chain(r1, Sort(KeyOf, s[..h])) && Chain(r2, Sort(KeyOf, s[h..]))
    ensures r1 in s[..h] && r1.prev == old(r1.prev) && r2 in s[h..] && r2.prev == old(r2.prev)
    ensures Disjoint(Sort(KeyOf, s[..h]), Sort(KeyOf, s[h..]))
    ensures Within(Sort(KeyOf, s[..h]), s) && Within(Sort(KeyOf, s[h..]), s)
    decreases |s|, 0
  {
    hide Sort;
    SortedHalves(s, h);
    r1 := SortList(list, s[..h]);
    assert Chain(second, s[h..]);
    WithinTrans(Sort(KeyOf, s[..h]), s[..h], s);
    WithinTrans(Sort(KeyOf, s[h..]), s[h..], s);
    ghost var a := Sort(KeyOf, s[..h]);
    assert forall i :: 0 <= i < |a| ==> a[i] in s && a[i] !in s[h..];
    r2 := SortList(second, s[h..]);
    assert Chain(r1, a);
  }

  lemma SortSplits(s: seq<Item>)
    requires |s| >= 2 && !Increasing(KeyOf, s)
    ensures Sort(KeyOf, s) == Merge(KeyOf, Sort(KeyOf, s[..(|s| + 1) / 2]), Sort(KeyOf, s[(|s| + 1) / 2..]))
  {
  }

  lemma SortKeepsItems(s: seq<Item>)
    ensures Within(Sort(KeyOf, s), s) && Within(s, Sort(KeyOf, s))
  {
    SortPermutes(KeyOf, s);
    SameItems(Sort(KeyOf, s), s);
  }

  lemma SameItems(s: seq<Item>, t: seq<Item>)
    requires multiset(s) == multiset(t)
    ensures Within(s, t) && Within(t, s)
  {
    assert forall x :: x in s ==> x in multiset(s);
    assert forall x :: x in t ==> x in multiset(t);
  }

  lemma SortedHalves(s: seq<Item>, h: nat)
    requires AllDiffer(s) && h <= |s|
    ensures Disjoint(s[..h], s[h..])
    ensures Within(s[..h], s) && Within(s[h..], s)
    ensures Within(Sort(KeyOf, s[..h]), s[..h]) && Within(Sort(KeyOf, s[h..]), s[h..])
    ensures Disjoint(Sort(KeyOf, s[..h]), s[h..])
    ensures Disjoint(Sort(KeyOf, s[..h]), Sort(KeyOf, s[h..]))
  {
    hide Sort;
    SortKeepsItems(s[..h]);
    SortKeepsItems(s[h..]);
  }

  /** cJSONUtils_SortObject.  The object stays well linked exactly when the name of its first member is strictly
      below all its other names; otherwise the new first member keeps the prev it had inside the list. */
  method SortObject(parent: Item)
    requires parent.Valid()
    modifies parent, parent.kids
    ensures parent.Listed() && parent.kids == Sort(KeyOf, old(parent.kids))
    ensures Named(KeyOf, old(parent.kids)) ==> (parent.Valid() <==> FirstLeast(KeyOf, old(parent.kids)))
    ensures forall i :: 0 < i < |old(parent.kids)| && parent.child == old(parent.kids)[i] ==>
      parent.child.prev == old(parent.kids)[i - 1]
  {
    hide Sort, FirstLeast;
    ghost var s := parent.kids;
    SortKeepsItems(s);
    parent.child := SortList(parent.child, s);
    parent.kids := Sort(KeyOf, s);
    if Named(KeyOf, s) {
      if s == [] {
        NothingLeast();
      } else {
        StaysFirst(KeyOf, s);
      }
    }
  }

  lemma NothingLeast()
    ensures FirstLeast(KeyOf, [])
  {
  }

  /** The items from p on are in order, and the one at q leads back to the one at p. */
  ghost predicate Cycle(t: seq<Item>, p: nat, q: nat)
    reads t
  {
    && p <= q < |t| && t[q].next == t[p]
    && forall i {:trigger t[i].next} :: p <= i < q ==> t[i].next == t[i + 1]
  }

  /** What the stale prev does to every object that does not stay well linked: sort it, then take its first member
      out.  The new first member is on a cycle that ends with the old predecessor, and walking the list never
      ends. */
  method DetachFirstAfterSort(parent: Item) returns (r: Item?, ghost p: nat)
    requires parent.Valid() && Named(KeyOf, parent.kids) && !FirstLeast(KeyOf, parent.kids)
    modifies parent, parent.kids
    ensures var t := Sort(KeyOf, old(parent.kids));
      && |t| > 1 && 1 <= p < |t| && r == t[0] && parent.child == t[1] && Cycle(t, 1, p)
      && exists i :: 0 < i < |t| && old(parent.kids)[i] == t[0] && t[p] == old(parent.kids)[i - 1]
  {
    hide Sort, FirstLeast;
    ghost var s := parent.kids;
    p := StalePredecessor(s);
    SortKeepsItems(s);
    SortObject(parent);
    r := parent.child;
    var gone := DetachItemViaPointer(parent, r);
  }

  /** The predecessor the new first member had is somewhere behind it. */
  lemma StalePredecessor(s: seq<Item>) returns (p: nat)
    requires AllDiffer(s) && Named(KeyOf, s) && !FirstLeast(KeyOf, s)
    ensures var t := Sort(KeyOf, s);
      1 <= p < |t| && exists i :: 0 < i < |s| && s[i] == t[0] && t[p] == s[i - 1]
  {
    hide Sort, FirstLeast;
    var t := Sort(KeyOf, s);
    if s == [] {
      NothingLeast();
    }
    StaysFirst(KeyOf, s);
    SortKeepsItems(s);
    assert t[0] in s;
    var i :| 0 <= i < |s| && s[i] == t[0];
    assert s[i - 1] in t;
    p :| 0 <= p < |t| && t[p] == s[i - 1];
  }
}
