/** cJSONUtils_SortObject and cJSONUtils_Compare: sorted member lists, and when two values are the same. */
module CjsonCompare {
  import opened Wrappers
  import opened CjsonKeys
  import opened CjsonString
  import opened CjsonText
  import opened CjsonDoc
  import opened CjsonPointer

  function KeyOf(m: Member): string {
    m.key
  }

  /** cJSONUtils_SortObject */
  function Sorted(members: seq<Member>): seq<Member> {
    Sort(KeyOf, members)
  }

  predicate SameKind(a: Json, b: Json) {
    match a
    case Null => b.Null?
    case False => b.False?
    case True => b.True?
    case Number(_) => b.Number?
    case Str(_) => b.Str?
    case Arr(_) => b.Arr?
    case Obj(_) => b.Obj?
  }

  /** Everything in s is nested less than h deep. */
  predicate ItemsBelow(s: seq<Json>, h: nat) {
    forall i :: 0 <= i < |s| ==> Height(s[i]) < h
  }

  predicate MembersBelow(s: seq<Member>, h: nat) {
    forall i :: 0 <= i < |s| ==> Height(s[i].value) < h
  }

  lemma {:induction false} ItemHeights(items: seq<Json>)
    ensures forall i :: 0 <= i < |items| ==> Height(items[i]) <= HeightItems(items)
    decreases |items|
  {
    if items != [] {
      ItemHeights(items[1..]);
      forall i | 0 <= i < |items| ensures Height(items[i]) <= HeightItems(items) {
        assert i > 0 ==> items[i] == items[1..][i - 1];
      }
    }
  }

  lemma {:induction false} MemberHeights(members: seq<Member>)
    ensures forall i :: 0 <= i < |members| ==> Height(members[i].value) <= HeightMembers(members)
    decreases |members|
  {
    if members != [] {
      MemberHeights(members[1..]);
      forall i | 0 <= i < |members| ensures Height(members[i].value) <= HeightMembers(members) {
        assert i > 0 ==> members[i] == members[1..][i - 1];
      }
    }
  }

  lemma SortedBelow(members: seq<Member>)
    ensures MembersBelow(Sorted(members), Height(Obj(members)))
  {
    SortPermutes(KeyOf, members);
    MemberHeights(members);
    var s := Sorted(members);
    forall i | 0 <= i < |s| ensures Height(s[i].value) < Height(Obj(members)) {
      assert s[i] in multiset(s);
      assert s[i] in members;
    }
  }

  lemma ArrBelow(items: seq<Json>)
    ensures ItemsBelow(items, Height(Arr(items)))
  {
    ItemHeights(items);
  }

  lemma FirstIs(members: seq<Member>, f: string)
    requires DistinctNames(members)
    ensures f in MeaningMembers(members) <==> First(members, f) < |members|
    ensures var j := First(members, f);
      j < |members| ==> MeaningMembers(members)[f] == Entry(members[j].key, Meaning(members[j].value))
  {
    hide MeaningMembers, Meaning, Fold, DistinctNames;
    MapOf(members);
    if f in MeaningMembers(members) {
      var i :| 0 <= i < |members| && Fold(members[i].key) == f;
    }
  }

  function Docs(s: seq<Json>): (ds: seq<Doc>)
    ensures |ds| == |s| && forall i :: 0 <= i < |s| ==> ds[i] == Meaning(s[i])
  {
    seq(|s|, i requires 0 <= i < |s| => Meaning(s[i]))
  }

  lemma MeaningOfArr(a: seq<Json>)
    ensures Meaning(Arr(a)) == List(Docs(a))
  {
    assert Meaning(Arr(a)).items == Docs(a);
  }

  // ---------------------------------------------------------------- sorted member lists

  /** Which of the first members comes first: negative for a, positive for b. */
  function Diff(a: seq<Member>, b: seq<Member>): int
    requires a != [] || b != []
  {
    if a == [] then 1 else if b == [] then -1 else Compare(a[0].key, b[0].key)
  }

  ghost predicate Strict(s: seq<Member>) {
    && (forall i :: 0 <= i < |s| ==> NulFree(s[i].key))
    && (forall i, j :: 0 <= i < j < |s| ==> Compare(s[i].key, s[j].key) < 0)
  }

  lemma CountTwice<T>(s: seq<T>, i: nat, j: nat)
    requires i < j < |s| && s[i] == s[j]
    ensures multiset(s)[s[i]] >= 2
  {
    assert s == s[..i] + [s[i]] + s[i + 1..j] + [s[j]] + s[j + 1..];
  }

  lemma CountOnce(s: seq<Member>, i: nat)
    requires DistinctNames(s) && i < |s|
    ensures multiset(s)[s[i]] == 1
  {
    hide Fold;
    assert s == s[..i] + [s[i]] + s[i + 1..];
    assert s[i] !in s[..i] && s[i] !in s[i + 1..];
  }

  lemma DistinctByMultiset(a: seq<Member>, b: seq<Member>)
    requires DistinctNames(a) && multiset(a) == multiset(b)
    ensures DistinctNames(b)
  {
    hide Fold;
    forall i | 0 <= i < |b| ensures NulFree(b[i].key) {
      assert b[i] in multiset(a);
    }
    forall i, j | 0 <= i < j < |b| ensures Fold(b[i].key) != Fold(b[j].key) {
      if Fold(b[i].key) == Fold(b[j].key) {
        assert b[i] in multiset(a) && b[j] in multiset(a);
        var x :| 0 <= x < |a| && a[x] == b[i];
        var y :| 0 <= y < |a| && a[y] == b[j];
        assert x == y;
        CountTwice(b, i, j);
        CountOnce(a, x);
        assert false;
      }
    }
  }

  lemma SortedStrict(s: seq<Member>)
    requires DistinctNames(s)
    ensures Strict(Sorted(s)) && DistinctNames(Sorted(s)) && multiset(Sorted(s)) == multiset(s)
  {
    hide Sort, Fold;
    var t := Sorted(s);
    SortPermutes(KeyOf, s);
    SortOrders(KeyOf, s);
    DistinctByMultiset(s, t);
    forall i, j | 0 <= i < j < |t| ensures Compare(t[i].key, t[j].key) < 0 {
      assert Compare(KeyOf(t[i]), KeyOf(t[j])) <= 0;
      SameName(t[i].key, t[j].key);
    }
  }

  lemma StrictTail(s: seq<Member>)
    requires Strict(s) && s != []
    ensures Strict(s[1..]) && First(s[1..], Fold(s[0].key)) == |s| - 1
  {
    hide Fold, Compare;
    var rest := s[1..];
    forall i | 0 <= i < |rest| ensures Fold(rest[i].key) != Fold(s[0].key) {
      SameName(s[0].key, s[i + 1].key);
    }
    var j := First(rest, Fold(s[0].key));
  }

  /** A name before the first of a sorted list is not in it. */
  lemma Absent(k: string, s: seq<Member>)
    requires Strict(s) && NulFree(k) && (s != [] ==> Compare(k, s[0].key) < 0)
    ensures First(s, Fold(k)) == |s|
  {
    hide Fold, Compare;
    forall i | 0 <= i < |s| ensures Fold(s[i].key) != Fold(k) {
      if i > 0 {
        CompareChains(k, s[0].key, s[i].key);
      }
      SameName(k, s[i].key);
    }
  }

  lemma DiffMeans(a: seq<Member>, b: seq<Member>)
    requires Strict(a) && Strict(b) && (a != [] || b != [])
    ensures Diff(a, b) == 0 ==> a != [] && b != [] && Fold(a[0].key) == Fold(b[0].key)
    ensures Diff(a, b) < 0 ==> a != [] && First(b, Fold(a[0].key)) == |b|
    ensures Diff(a, b) > 0 ==> b != [] && First(a, Fold(b[0].key)) == |a|
  {
    hide Fold, Compare, First;
    if a != [] && b != [] {
      SameName(a[0].key, b[0].key);
      CompareFlips(a[0].key, b[0].key);
    }
    if Diff(a, b) < 0 {
      Absent(a[0].key, b);
    } else if Diff(a, b) > 0 {
      Absent(b[0].key, a);
    }
  }

  lemma FirstTail(s: seq<Member>, f: string)
    requires s != []
    ensures Fold(s[0].key) == f ==> First(s, f) == 0
    ensures Fold(s[0].key) != f ==> First(s, f) == 1 + First(s[1..], f)
  {
  }

  // ---------------------------------------------------------------- comparing

  /** cJSONUtils_Compare: 0 for equal values.  It sorts the objects it compares. */
  function CompareValues(a: Json, b: Json): int
    decreases Height(a), 1, 0
  {
    if !SameKind(a, b) then -1
    else match a
      case Number(t) => if t != b.text then -2 else 0
      case Str(s) => if s != b.s then -3 else 0
      case Arr(items) => ArrBelow(items); CompareItems(items, b.items, Height(a))
      case Obj(members) => SortedBelow(members); CompareMembers(Sorted(members), Sorted(b.members), Height(a))
      case _ => 0
  }

  function CompareItems(a: seq<Json>, b: seq<Json>, h: nat): int
    requires ItemsBelow(a, h)
    decreases h, 0, |a|
  {
    if a == [] || b == [] then (if a == [] && b == [] then 0 else -4)
    else
      var err := CompareValues(a[0], b[0]);
      if err != 0 then err else CompareItems(a[1..], b[1..], h)
  }

  function CompareMembers(a: seq<Member>, b: seq<Member>, h: nat): int
    requires MembersBelow(a, h)
    decreases h, 0, |a|
  {
    if a == [] || b == [] then (if a == [] && b == [] then 0 else -5)
    else if Compare(a[0].key, b[0].key) != 0 then -6
    else
      var err := CompareValues(a[0].value, b[0].value);
      if err != 0 then err else CompareMembers(a[1..], b[1..], h)
  }

  /** The first value after comparing: the objects looked at are sorted. */
  function Compared(a: Json, b: Json): Json
    decreases Height(a), 1, 0
  {
    if !SameKind(a, b) then a
    else match a
      case Arr(items) => ArrBelow(items); Arr(ComparedItems(items, b.items, Height(a)))
      case Obj(members) => SortedBelow(members); Obj(ComparedMembers(Sorted(members), Sorted(b.members), Height(a)))
      case _ => a
  }

  function ComparedItems(a: seq<Json>, b: seq<Json>, h: nat): seq<Json>
    requires ItemsBelow(a, h)
    decreases h, 0, |a|
  {
    if a == [] || b == [] then a
    else
      [Compared(a[0], b[0])] + if CompareValues(a[0], b[0]) != 0 then a[1..] else ComparedItems(a[1..], b[1..], h)
  }

  function ComparedMembers(a: seq<Member>, b: seq<Member>, h: nat): seq<Member>
    requires MembersBelow(a, h)
    decreases h, 0, |a|
  {
    if a == [] || b == [] || Compare(a[0].key, b[0].key) != 0 then a
    else
      [Member(a[0].key, Compared(a[0].value, b[0].value))]
      + if CompareValues(a[0].value, b[0].value) != 0 then a[1..] else ComparedMembers(a[1..], b[1..], h)
  }

  /** Comparing may reorder members; the value stays the same document. */
  lemma {:induction false} ComparedKeeps(a: Json, b: Json)
    requires WellNamed(a)
    ensures WellNamed(Compared(a, b)) && Meaning(Compared(a, b)) == Meaning(a)
    decreases Height(a), 1
  {
    hide Sorted, ComparedItems, ComparedMembers, MeaningMembers, DistinctNames;
    if SameKind(a, b) {
      match a
      case Arr(x) =>
        ArrBelow(x);
        ComparedItemsKeep(x, b.items, Height(a));
        MeaningOfArr(x);
        MeaningOfArr(ComparedItems(x, b.items, Height(a)));
      case Obj(x) =>
        SortedBelow(x);
        SortedWellNamed(x);
        StrictDistinct(Sorted(x));
        ComparedMembersKeep(Sorted(x), Sorted(b.members), Height(a));
      case _ =>
    }
  }

  lemma {:induction false} ComparedItemsKeep(a: seq<Json>, b: seq<Json>, h: nat)
    requires ItemsBelow(a, h) && forall i :: 0 <= i < |a| ==> WellNamed(a[i])
    ensures var r := ComparedItems(a, b, h); Docs(r) == Docs(a) && forall i :: 0 <= i < |r| ==> WellNamed(r[i])
    decreases h, 0, |a|
  {
    hide WellNamed, CompareValues, Meaning, Compared, Docs;
    if a != [] && b != [] {
      ComparedKeeps(a[0], b[0]);
      var rest := a[1..];
      if CompareValues(a[0], b[0]) == 0 {
        ComparedItemsKeep(a[1..], b[1..], h);
        rest := ComparedItems(a[1..], b[1..], h);
      }
      DocsCons(a[0], a[1..]);
      DocsCons(Compared(a[0], b[0]), rest);
      assert a == [a[0]] + a[1..];
    }
  }

  lemma DocsCons(v: Json, s: seq<Json>)
    ensures Docs([v] + s) == [Meaning(v)] + Docs(s)
  {
    hide Meaning;
  }

  lemma {:induction false} ComparedMembersKeep(a: seq<Member>, b: seq<Member>, h: nat)
    requires MembersBelow(a, h) && DistinctNames(a) && WellNamedValues(a)
    ensures var r := ComparedMembers(a, b, h);
      && |r| == |a| && (forall i :: 0 <= i < |r| ==> r[i].key == a[i].key)
      && DistinctNames(r) && WellNamedValues(r) && MeaningMembers(r) == MeaningMembers(a)
    decreases h, 0, |a|
  {
    hide WellNamed, CompareValues, Meaning, Compared, Compare, Fold;
    if a != [] && b != [] && Compare(a[0].key, b[0].key) == 0 {
      ComparedKeeps(a[0].value, b[0].value);
      var head := Member(a[0].key, Compared(a[0].value, b[0].value));
      var rest := a[1..];
      if CompareValues(a[0].value, b[0].value) == 0 {
        ComparedMembersKeep(a[1..], b[1..], h);
        rest := ComparedMembers(a[1..], b[1..], h);
      }
      assert ([head] + rest)[1..] == rest;
    }
  }

  /** What is left of a document when letter case in names is ignored. */
  function Caseless(d: Doc): Doc
    decreases d
  {
    match d
    case Leaf(_) => d
    case List(items) => List(seq(|items|, i requires 0 <= i < |items| => Caseless(items[i])))
    case Object(m) => Object(map k | k in m :: Entry(k, Caseless(m[k].doc)))
  }

  function CaselessMembers(s: seq<Member>): map<string, Entry> {
    Caseless(Object(MeaningMembers(s))).members
  }

  function CaselessItems(s: seq<Json>): seq<Doc> {
    Caseless(List(Docs(s))).items
  }

  ghost predicate WellNamedValues(s: seq<Member>) {
    forall i :: 0 <= i < |s| ==> WellNamed(s[i].value)
  }

  lemma SortedWellNamed(s: seq<Member>)
    requires DistinctNames(s) && WellNamedValues(s)
    ensures WellNamedValues(Sorted(s)) && Strict(Sorted(s)) && MeaningMembers(Sorted(s)) == MeaningMembers(s)
  {
    hide Fold, Sorted, WellNamed, MeaningMembers, Strict;
    SortedStrict(s);
    OrderIrrelevant(s, Sorted(s));
    var t := Sorted(s);
    forall i | 0 <= i < |t| ensures WellNamed(t[i].value) {
      assert t[i] in multiset(s);
    }
  }

  lemma WellNamedParts(v: Json)
    requires WellNamed(v)
    ensures v.Arr? ==> forall i :: 0 <= i < |v.items| ==> WellNamed(v.items[i])
    ensures v.Obj? ==> WellNamedValues(v.members) && DistinctNames(v.members)
  {
    hide Fold;
  }

  /** Comparing decides equality up to member order and letter case of names. */
  lemma {:induction false} CompareMeans(a: Json, b: Json)
    requires WellNamed(a) && WellNamed(b)
    ensures CompareValues(a, b) == 0 <==> Caseless(Meaning(a)) == Caseless(Meaning(b))
    decreases Height(a), 1
  {
    hide WellNamed, Sorted, CompareItems, CompareMembers, MeaningMembers;
    if SameKind(a, b) {
      match a
      case Arr(x) =>
        ArrBelow(x);
        WellNamedParts(a);
        WellNamedParts(b);
        CompareItemsMean(x, b.items, Height(a));
        MeaningOfArr(x);
        MeaningOfArr(b.items);
      case Obj(x) =>
        SortedBelow(x);
        WellNamedParts(a);
        WellNamedParts(b);
        SortedWellNamed(x);
        SortedWellNamed(b.members);
        CompareMembersMean(Sorted(x), Sorted(b.members), Height(a));
      case _ =>
    }
  }

  lemma {:induction false} CompareItemsMean(a: seq<Json>, b: seq<Json>, h: nat)
    requires ItemsBelow(a, h)
    requires (forall i :: 0 <= i < |a| ==> WellNamed(a[i])) && forall i :: 0 <= i < |b| ==> WellNamed(b[i])
    ensures CompareItems(a, b, h) == 0 <==> CaselessItems(a) == CaselessItems(b)
    decreases h, 0, |a|
  {
    hide WellNamed, CompareValues, Meaning, CaselessItems, Caseless;
    if a == [] || b == [] {
      CaselessLength(a);
      CaselessLength(b);
    } else {
      CompareMeans(a[0], b[0]);
      CompareItemsMean(a[1..], b[1..], h);
      CaselessItemsParts(a);
      CaselessItemsParts(b);
    }
  }

  lemma CaselessLength(s: seq<Json>)
    ensures |CaselessItems(s)| == |s|
  {
    hide Meaning;
  }

  lemma CaselessItemsParts(s: seq<Json>)
    requires s != []
    ensures |CaselessItems(s)| == |s| && CaselessItems(s)[0] == Caseless(Meaning(s[0]))
    ensures CaselessItems(s)[1..] == CaselessItems(s[1..])
    ensures CaselessItems(s) == [CaselessItems(s)[0]] + CaselessItems(s)[1..]
  {
    hide Meaning;
  }

  lemma StrictDistinct(s: seq<Member>)
    requires Strict(s)
    ensures DistinctNames(s)
  {
    hide Fold, Compare;
    forall i, j | 0 <= i < j < |s| ensures Fold(s[i].key) != Fold(s[j].key) {
      SameName(s[i].key, s[j].key);
    }
  }

  lemma MembersParts(s: seq<Member>)
    requires Strict(s) && s != []
    ensures Fold(s[0].key) !in MeaningMembers(s[1..])
    ensures MeaningMembers(s) == MeaningMembers(s[1..])[Fold(s[0].key) := Entry(s[0].key, Meaning(s[0].value))]
  {
    hide Fold, Meaning;
    StrictTail(s);
    StrictDistinct(s[1..]);
    FirstIs(s[1..], Fold(s[0].key));
  }

  lemma CaselessParts(s: seq<Member>)
    requires Strict(s) && s != []
    ensures Fold(s[0].key) !in CaselessMembers(s[1..])
    ensures CaselessMembers(s)
         == CaselessMembers(s[1..])[Fold(s[0].key) := Entry(Fold(s[0].key), Caseless(Meaning(s[0].value)))]
  {
    hide Fold, Meaning, MeaningMembers, Strict;
    MembersParts(s);
  }

  lemma MapParts<K, V>(m: map<K, V>, n: map<K, V>, k: K, x: V, y: V)
    requires k !in m && k !in n
    ensures m[k := x] == n[k := y] <==> m == n && x == y
  {
    if m[k := x] == n[k := y] {
      assert m[k := x][k] == n[k := y][k];
      assert m == m[k := x] - {k};
      assert n == n[k := y] - {k};
    }
  }

  lemma {:induction false} CompareMembersMean(a: seq<Member>, b: seq<Member>, h: nat)
    requires MembersBelow(a, h) && Strict(a) && Strict(b) && WellNamedValues(a) && WellNamedValues(b)
    ensures CompareMembers(a, b, h) == 0 <==> CaselessMembers(a) == CaselessMembers(b)
    decreases h, 0, |a|
  {
    hide WellNamed, CompareValues, Meaning, Fold, CaselessMembers, Caseless, Compare, Strict;
    if a == [] || b == [] {
      OnlyEmptyMeansEmpty(a);
      OnlyEmptyMeansEmpty(b);
    } else {
      StrictTail(a);
      StrictTail(b);
      CaselessParts(a);
      CaselessParts(b);
      HeadsCompare(a, b);
      if Compare(a[0].key, b[0].key) == 0 {
        CompareMeans(a[0].value, b[0].value);
        CompareMembersMean(a[1..], b[1..], h);
        var f := Fold(a[0].key);
        MapParts(CaselessMembers(a[1..]), CaselessMembers(b[1..]), f,
                 Entry(f, Caseless(Meaning(a[0].value))), Entry(f, Caseless(Meaning(b[0].value))));
      }
    }
  }

  lemma OnlyEmptyMeansEmpty(s: seq<Member>)
    requires Strict(s)
    ensures CaselessMembers(s) == map[] <==> s == []
  {
    if s != [] {
      assert Fold(s[0].key) in CaselessMembers(s);
    }
  }

  /** If the first names differ, the one that comes first is missing on the other side. */
  lemma HeadsCompare(a: seq<Member>, b: seq<Member>)
    requires Strict(a) && Strict(b) && a != [] && b != []
    ensures Compare(a[0].key, b[0].key) == 0 ==> Fold(a[0].key) == Fold(b[0].key)
    ensures Compare(a[0].key, b[0].key) != 0 ==> CaselessMembers(a) != CaselessMembers(b)
  {
    hide Meaning, Fold, MeaningMembers, Compare;
    SameName(a[0].key, b[0].key);
    DiffMeans(a, b);
    StrictDistinct(a);
    StrictDistinct(b);
    FirstIs(b, Fold(a[0].key));
    FirstIs(a, Fold(b[0].key));
    FirstIs(a, Fold(a[0].key));
    FirstIs(b, Fold(b[0].key));
    FirstTail(a, Fold(a[0].key));
    FirstTail(b, Fold(b[0].key));
    assert Compare(a[0].key, b[0].key) < 0 ==> Fold(a[0].key) in CaselessMembers(a) - CaselessMembers(b).Keys;
    assert Compare(a[0].key, b[0].key) > 0 ==> Fold(b[0].key) in CaselessMembers(b) - CaselessMembers(a).Keys;
  }
}
