/** Which objects comparing leaves well linked.  cJSONUtils_Compare sorts the objects it looks at, and
    CjsonSort.SortObject keeps a list well linked exactly if its first member stays first. */
module CjsonLinks {
  import opened Wrappers
  import opened CjsonKeys
  import opened CjsonString
  import opened CjsonText
  import opened CjsonDoc
  import opened CjsonPointer
  import opened CjsonCompare

  /** Every object in the value has a first name strictly below its other names. */
  predicate Calm(v: Json)
    decreases v
  {
    match v
    case Arr(items) => forall i :: 0 <= i < |items| ==> Calm(items[i])
    case Obj(members) => FirstLeast(KeyOf, members) && forall i :: 0 <= i < |members| ==> Calm(members[i].value)
    case _ => true
  }

  predicate CalmValues(members: seq<Member>) {
    forall i :: 0 <= i < |members| ==> Calm(members[i].value)
  }

  /** Sorting leaves the first member first. */
  predicate FirstStays(members: seq<Member>) {
    members == [] || Sorted(members)[0] == members[0]
  }

  /** Every object of a that comparing it with b sorts keeps its first member. */
  predicate LinksKept(a: Json, b: Json)
    decreases Height(a), 1, 0
  {
    SameKind(a, b) ==>
      match a
      case Arr(items) => ArrBelow(items); ItemsKept(items, b.items, Height(a))
      case Obj(members) =>
        SortedBelow(members);
        FirstStays(members) && MembersKept(Sorted(members), Sorted(b.members), Height(a))
      case _ => true
  }

  predicate ItemsKept(a: seq<Json>, b: seq<Json>, h: nat)
    requires ItemsBelow(a, h)
    decreases h, 0, |a|
  {
    a != [] && b != [] ==>
      LinksKept(a[0], b[0]) && (CompareValues(a[0], b[0]) == 0 ==> ItemsKept(a[1..], b[1..], h))
  }

  predicate MembersKept(a: seq<Member>, b: seq<Member>, h: nat)
    requires MembersBelow(a, h)
    decreases h, 0, |a|
  {
    a != [] && b != [] && Compare(a[0].key, b[0].key) == 0 ==>
      && LinksKept(a[0].value, b[0].value)
      && (CompareValues(a[0].value, b[0].value) == 0 ==> MembersKept(a[1..], b[1..], h))
  }

  lemma FirstStaysExactly(members: seq<Member>)
    requires DistinctNames(members)
    ensures FirstStays(members) <==> FirstLeast(KeyOf, members)
  {
    hide Fold, Sort, Compare;
    if members != [] {
      assert AllDiffer(members);
      StaysFirst(KeyOf, members);
    }
  }

  lemma SortedCalm(members: seq<Member>)
    ensures CalmValues(Sorted(members)) <==> CalmValues(members)
  {
    hide Calm, Sort;
    var s := Sorted(members);
    forall i | 0 <= i < |members| ensures members[i] in s {
      SortElement(KeyOf, members, members[i]);
    }
    forall i | 0 <= i < |s| ensures s[i] in members {
      SortElement(KeyOf, members, s[i]);
    }
  }

  /** A calm value keeps its links whatever it is compared with, and stays calm. */
  lemma {:induction false} CalmKeepsLinks(a: Json, b: Json)
    requires WellNamed(a) && Calm(a)
    ensures LinksKept(a, b) && Calm(Compared(a, b))
    decreases Height(a), 1
  {
    hide Sorted, ComparedItems, ComparedMembers, ItemsKept, MembersKept, MeaningMembers, DistinctNames, FirstStays,
      FirstLeast;
    if SameKind(a, b) {
      match a
      case Arr(x) =>
        ArrBelow(x);
        CalmItems(x, b.items, Height(a));
        assert Compared(a, b) == Arr(ComparedItems(x, b.items, Height(a)));
      case Obj(x) =>
        SortedBelow(x);
        FirstStaysExactly(x);
        SortedCalm(x);
        SortedWellNamed(x);
        CalmMembers(Sorted(x), Sorted(b.members), Height(a));
      case _ =>
    }
  }

  predicate CalmAll(items: seq<Json>) {
    forall i :: 0 <= i < |items| ==> Calm(items[i])
  }

  lemma CalmParts(items: seq<Json>)
    requires items != []
    ensures CalmAll(items) <==> Calm(items[0]) && CalmAll(items[1..])
  {
    hide Calm;
    assert forall i :: 0 < i < |items| ==> items[i] == items[1..][i - 1];
  }

  lemma {:induction false} CalmItems(a: seq<Json>, b: seq<Json>, h: nat)
    requires ItemsBelow(a, h) && CalmAll(a) && forall i :: 0 <= i < |a| ==> WellNamed(a[i])
    ensures ItemsKept(a, b, h) && CalmAll(ComparedItems(a, b, h))
    decreases h, 0, |a|
  {
    hide WellNamed, CompareValues, Compared, Calm, CalmAll, LinksKept;
    if a != [] && b != [] {
      CalmParts(a);
      CalmKeepsLinks(a[0], b[0]);
      CalmItems(a[1..], b[1..], h);
      var r := ComparedItems(a, b, h);
      assert r[1..] == if CompareValues(a[0], b[0]) != 0 then a[1..] else ComparedItems(a[1..], b[1..], h);
      CalmParts(r);
    }
  }

  lemma {:induction false} CalmMembers(a: seq<Member>, b: seq<Member>, h: nat)
    requires MembersBelow(a, h) && Strict(a) && WellNamedValues(a) && CalmValues(a)
    ensures MembersKept(a, b, h)
    ensures FirstLeast(KeyOf, ComparedMembers(a, b, h)) && CalmValues(ComparedMembers(a, b, h))
    decreases h, 0, |a|
  {
    hide WellNamed, CompareValues, Compared, Calm, LinksKept, Compare, Strict, FirstLeast, Fold;
    StrictDistinct(a);
    ComparedMembersKeep(a, b, h);
    StrictLeast(a, ComparedMembers(a, b, h));
    if a != [] && b != [] && Compare(a[0].key, b[0].key) == 0 {
      StrictTail(a);
      CalmKeepsLinks(a[0].value, b[0].value);
      CalmMembers(a[1..], b[1..], h);
    }
  }

  lemma StrictLeast(s: seq<Member>, r: seq<Member>)
    requires Strict(s) && |r| == |s| && forall i :: 0 <= i < |r| ==> r[i].key == s[i].key
    ensures FirstLeast(KeyOf, r)
  {
    hide Compare;
  }

  /** A value found equal keeps its links exactly if it is calm. */
  lemma {:induction false} LinksKeptExactly(a: Json, b: Json)
    requires WellNamed(a) && CompareValues(a, b) == 0
    ensures LinksKept(a, b) <==> Calm(a)
    decreases Height(a), 1
  {
    hide Sorted, ItemsKept, MembersKept, CompareItems, CompareMembers, MeaningMembers, DistinctNames, FirstStays,
      FirstLeast;
    match a
    case Arr(x) =>
      ArrBelow(x);
      ItemsKeptExactly(x, b.items, Height(a));
    case Obj(x) =>
      SortedBelow(x);
      FirstStaysExactly(x);
      SortedCalm(x);
      SortedWellNamed(x);
      MembersKeptExactly(Sorted(x), Sorted(b.members), Height(a));
    case _ =>
  }

  lemma {:induction false} ItemsKeptExactly(a: seq<Json>, b: seq<Json>, h: nat)
    requires ItemsBelow(a, h) && (forall i :: 0 <= i < |a| ==> WellNamed(a[i])) && CompareItems(a, b, h) == 0
    ensures ItemsKept(a, b, h) <==> CalmAll(a)
    decreases h, 0, |a|
  {
    hide WellNamed, CompareValues, Calm, LinksKept;
    if a != [] {
      LinksKeptExactly(a[0], b[0]);
      ItemsKeptExactly(a[1..], b[1..], h);
      CalmParts(a);
    }
  }

  lemma {:induction false} MembersKeptExactly(a: seq<Member>, b: seq<Member>, h: nat)
    requires MembersBelow(a, h) && WellNamedValues(a) && CompareMembers(a, b, h) == 0
    ensures MembersKept(a, b, h) <==> CalmValues(a)
    decreases h, 0, |a|
  {
    hide WellNamed, CompareValues, Calm, LinksKept, Compare;
    if a != [] {
      LinksKeptExactly(a[0].value, b[0].value);
      MembersKeptExactly(a[1..], b[1..], h);
      assert forall i :: 0 < i < |a| ==> a[i] == a[1..][i - 1];
    }
  }

  // ---------------------------------------------------------------- what comparing does to the order

  /** In every object of the value the names are in order. */
  ghost predicate SortedThroughout(v: Json)
    decreases v
  {
    match v
    case Arr(items) => forall i :: 0 <= i < |items| ==> SortedThroughout(items[i])
    case Obj(members) =>
      Ordered(KeyOf, members) && forall i :: 0 <= i < |members| ==> SortedThroughout(members[i].value)
    case _ => true
  }

  ghost predicate ValuesSorted(members: seq<Member>) {
    forall i :: 0 <= i < |members| ==> SortedThroughout(members[i].value)
  }

  lemma {:induction false} ItemsSorted(a: seq<Json>, b: seq<Json>, h: nat)
    requires ItemsBelow(a, h) && CompareItems(a, b, h) == 0 && forall i :: 0 <= i < |a| ==> WellNamed(a[i])
    ensures forall i :: 0 <= i < |ComparedItems(a, b, h)| ==> SortedThroughout(ComparedItems(a, b, h)[i])
    decreases h, 0, |a|
  {
    hide CompareValues, Compared, SortedThroughout, WellNamed;
    if a != [] {
      EqualSorts(a[0], b[0]);
      ItemsSorted(a[1..], b[1..], h);
    }
  }

  lemma {:induction false} MembersSorted(a: seq<Member>, b: seq<Member>, h: nat)
    requires MembersBelow(a, h) && CompareMembers(a, b, h) == 0 && WellNamedValues(a)
    ensures var r := ComparedMembers(a, b, h);
      |r| == |a| && ValuesSorted(r) && forall i :: 0 <= i < |r| ==> r[i].key == a[i].key
    decreases h, 0, |a|
  {
    hide CompareValues, Compared, Compare, SortedThroughout, WellNamed;
    if a != [] {
      EqualSorts(a[0].value, b[0].value);
      MembersSorted(a[1..], b[1..], h);
      var r, rest := ComparedMembers(a, b, h), ComparedMembers(a[1..], b[1..], h);
      assert r == [Member(a[0].key, Compared(a[0].value, b[0].value))] + rest;
      assert forall i :: 0 < i < |r| ==> r[i] == rest[i - 1] && a[i] == a[1..][i - 1];
    }
  }

  lemma SameKeysOrdered(a: seq<Member>, b: seq<Member>)
    requires Ordered(KeyOf, a) && |a| == |b| && forall i :: 0 <= i < |b| ==> b[i].key == a[i].key
    ensures Ordered(KeyOf, b)
  {
    hide Compare;
    assert forall i :: 0 <= i < |b| ==> KeyOf(b[i]) == KeyOf(a[i]);
  }

  lemma SortedInOrder(s: seq<Member>)
    requires DistinctNames(s)
    ensures Ordered(KeyOf, Sorted(s))
  {
    SortOrders(KeyOf, s);
  }

  /** A value found equal is sorted throughout. */
  lemma {:induction false} EqualSorts(a: Json, b: Json)
    requires WellNamed(a) && CompareValues(a, b) == 0
    ensures SortedThroughout(Compared(a, b))
    decreases Height(a), 1
  {
    hide Sorted, CompareItems, CompareMembers, ComparedItems, ComparedMembers, Ordered, Compare, WellNamed;
    WellNamedParts(a);
    match a
    case Arr(x) =>
      ArrBelow(x);
      ItemsSorted(x, b.items, Height(a));
    case Obj(x) =>
      SortedBelow(x);
      SortedWellNamed(x);
      MembersSorted(Sorted(x), Sorted(b.members), Height(a));
      SortedInOrder(x);
      SameKeysOrdered(Sorted(x), ComparedMembers(Sorted(x), Sorted(b.members), Height(a)));
    case _ =>
  }
}
