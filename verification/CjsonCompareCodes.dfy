/** What the result of cJSONUtils_Compare tells when it is not 0: a place at which both documents have a part, and how
    these parts differ. */
module CjsonCompareCodes {
  import opened Wrappers
  import opened CjsonKeys
  import opened CjsonText
  import opened CjsonDoc
  import opened CjsonPointer
  import opened CjsonCompare
  import opened CjsonPatch

  predicate Alike(d: Doc, e: Doc) {
    || (d.List? && e.List?)
    || (d.Object? && e.Object?)
    || (d.Leaf? && e.Leaf? && SameKind(d.value, e.value))
  }

  /** -1: parts of different kinds; -2 and -3: different numbers and strings; -4: arrays of different lengths; -5 and
      -6: objects with another number of members, and with other names. */
  predicate Differ(code: int, d: Doc, e: Doc) {
    || (code == -1 && !Alike(d, e))
    || (code == -2 && d.Leaf? && e.Leaf? && d.value.Number? && e.value.Number? && d != e)
    || (code == -3 && d.Leaf? && e.Leaf? && d.value.Str? && e.value.Str? && d != e)
    || (code == -4 && d.List? && e.List? && |d.items| != |e.items|)
    || (code == -5 && d.Object? && e.Object? && |d.members| != |e.members|)
    || (code == -6 && d.Object? && e.Object? && d.members.Keys != e.members.Keys)
  }

  ghost predicate DifferAt(code: int, d: Doc, e: Doc, ts: seq<Token>) {
    && Resolve(d, ts).Some? && Resolve(e, ts).Some?
    && Differ(code, Resolve(d, ts).value, Resolve(e, ts).value)
  }

  ghost predicate DifferSomewhere(code: int, d: Doc, e: Doc) {
    exists ts :: DifferAt(code, d, e, ts)
  }

  lemma DifferHere(code: int, d: Doc, e: Doc)
    requires Differ(code, d, e)
    ensures DifferSomewhere(code, d, e)
  {
    hide Differ;
    assert DifferAt(code, d, e, []);
  }

  lemma DifferBelow(code: int, d: Doc, e: Doc, t: Token)
    requires Resolve(d, [t]).Some? && Resolve(e, [t]).Some?
    requires DifferSomewhere(code, Resolve(d, [t]).value, Resolve(e, [t]).value)
    ensures DifferSomewhere(code, d, e)
  {
    hide Resolve, Differ;
    var ts :| DifferAt(code, Resolve(d, [t]).value, Resolve(e, [t]).value, ts);
    ResolveStep(d, t, ts);
    ResolveStep(e, t, ts);
    assert DifferAt(code, d, e, [t] + ts);
  }

  /** The first elements that differ, or one array is longer. */
  lemma {:induction false} ItemsTell(a: seq<Json>, b: seq<Json>, h: nat) returns (i: nat)
    requires ItemsBelow(a, h) && CompareItems(a, b, h) != 0
    ensures || (CompareItems(a, b, h) == -4 && |a| != |b|)
            || (i < |a| && i < |b| && CompareItems(a, b, h) == CompareValues(a[i], b[i]))
    decreases |a|
  {
    hide CompareValues;
    i := 0;
    if a != [] && b != [] && CompareValues(a[0], b[0]) == 0 {
      i := ItemsTell(a[1..], b[1..], h);
      i := i + 1;
    }
  }

  /** The first members that differ, or a name that one object lacks, or one object has more members. */
  lemma {:induction false} MembersTell(a: seq<Member>, b: seq<Member>, h: nat) returns (i: nat)
    requires MembersBelow(a, h) && Strict(a) && Strict(b) && CompareMembers(a, b, h) != 0
    ensures || (CompareMembers(a, b, h) == -5 && |a| != |b|)
            || (CompareMembers(a, b, h) == -6 && MeaningMembers(a).Keys != MeaningMembers(b).Keys)
            || (&& i < |a| && i < |b| && Compare(a[i].key, b[i].key) == 0
                && CompareMembers(a, b, h) == CompareValues(a[i].value, b[i].value))
    decreases |a|
  {
    hide CompareValues, Compare, Strict, MeaningMembers, Fold;
    i := 0;
    if a != [] && b != [] {
      if Compare(a[0].key, b[0].key) != 0 {
        NameLacks(a, b);
      } else if CompareValues(a[0].value, b[0].value) == 0 {
        StrictTail(a);
        StrictTail(b);
        i := MembersTell(a[1..], b[1..], h);
        i := i + 1;
        KeysTail(a, b);
      }
    }
  }

  lemma NameLacks(a: seq<Member>, b: seq<Member>)
    requires Strict(a) && Strict(b) && a != [] && b != [] && Compare(a[0].key, b[0].key) != 0
    ensures MeaningMembers(a).Keys != MeaningMembers(b).Keys
  {
    hide Meaning, Fold, MeaningMembers, Compare;
    DiffMeans(a, b);
    StrictDistinct(a);
    StrictDistinct(b);
    FirstIs(b, Fold(a[0].key));
    FirstIs(a, Fold(b[0].key));
    FirstIs(a, Fold(a[0].key));
    FirstIs(b, Fold(b[0].key));
    FirstTail(a, Fold(a[0].key));
    FirstTail(b, Fold(b[0].key));
    assert Compare(a[0].key, b[0].key) < 0 ==> Fold(a[0].key) in MeaningMembers(a).Keys - MeaningMembers(b).Keys;
    assert Compare(a[0].key, b[0].key) > 0 ==> Fold(b[0].key) in MeaningMembers(b).Keys - MeaningMembers(a).Keys;
  }

  /** Objects with the same first name have the same names if the others do. */
  lemma KeysTail(a: seq<Member>, b: seq<Member>)
    requires Strict(a) && Strict(b) && a != [] && b != [] && Compare(a[0].key, b[0].key) == 0
    ensures MeaningMembers(a).Keys == MeaningMembers(b).Keys ==>
      MeaningMembers(a[1..]).Keys == MeaningMembers(b[1..]).Keys
  {
    hide Meaning, Fold, MeaningMembers, Compare;
    SameName(a[0].key, b[0].key);
    MembersParts(a);
    MembersParts(b);
    var f := Fold(a[0].key);
    assert MeaningMembers(a[1..]).Keys == MeaningMembers(a).Keys - {f};
    assert MeaningMembers(b[1..]).Keys == MeaningMembers(b).Keys - {f};
  }

  lemma {:induction false} MembersCounted(s: seq<Member>)
    requires Strict(s)
    ensures |MeaningMembers(s)| == |s|
    decreases |s|
  {
    hide Meaning, Fold, Strict;
    if s != [] {
      StrictTail(s);
      MembersCounted(s[1..]);
      MembersParts(s);
      OneMore(MeaningMembers(s[1..]), Fold(s[0].key), Entry(s[0].key, Meaning(s[0].value)));
    }
  }

  lemma OneMore(m: map<string, Entry>, f: string, e: Entry)
    requires f !in m
    ensures |m[f := e]| == |m| + 1
  {
    assert m[f := e].Keys == m.Keys + {f};
  }

  lemma ItemPart(items: seq<Json>, i: nat)
    requires i < |items|
    ensures Resolve(Meaning(Arr(items)), [Index(i)]) == Some(Meaning(items[i]))
  {
    ResolveOne(Meaning(Arr(items)), Index(i));
  }

  lemma MemberPart(members: seq<Member>, i: nat, k: string)
    requires DistinctNames(members) && i < |members| && NulFree(k) && Compare(members[i].key, k) == 0
    ensures Resolve(Object(MeaningMembers(members)), [Name(k)]) == Some(Meaning(members[i].value))
  {
    hide MeaningMembers, Meaning, Fold, Compare;
    SameName(members[i].key, k);
    MemberMeans(members, i);
    ResolveOne(Object(MeaningMembers(members)), Name(k));
  }

  lemma MembersDiffer(x: seq<Member>, y: seq<Member>, h: nat)
    requires MembersBelow(Sorted(x), h) && WellNamed(Obj(x)) && WellNamed(Obj(y))
    requires CompareMembers(Sorted(x), Sorted(y), h) != 0
    requires forall v, w :: Height(v) < h && WellNamed(v) && WellNamed(w) && CompareValues(v, w) != 0 ==>
      DifferSomewhere(CompareValues(v, w), Meaning(v), Meaning(w))
    ensures var code := CompareMembers(Sorted(x), Sorted(y), h);
      DifferSomewhere(code, Object(MeaningMembers(x)), Object(MeaningMembers(y)))
  {
    hide WellNamed, Sorted, CompareMembers, CompareValues, Meaning, MeaningMembers, Compare, Strict, Height,
      DifferSomewhere, Resolve;
    var code := CompareMembers(Sorted(x), Sorted(y), h);
    var d, e := Object(MeaningMembers(x)), Object(MeaningMembers(y));
    WellNamedParts(Obj(x));
    WellNamedParts(Obj(y));
    SortedWellNamed(x);
    SortedWellNamed(y);
    MembersCounted(Sorted(x));
    MembersCounted(Sorted(y));
    var i := MembersTell(Sorted(x), Sorted(y), h);
    if (code == -5 && |Sorted(x)| != |Sorted(y)|) || (code == -6 && d.members.Keys != e.members.Keys) {
      DifferHere(code, d, e);
    } else {
      var m, n := Sorted(x)[i], Sorted(y)[i];
      StrictDistinct(Sorted(x));
      StrictDistinct(Sorted(y));
      SameAsItself(n.key);
      MemberPart(Sorted(x), i, n.key);
      MemberPart(Sorted(y), i, n.key);
      DifferBelow(code, d, e, Name(n.key));
    }
  }

  lemma SameAsItself(k: string)
    requires NulFree(k)
    ensures Compare(k, k) == 0
  {
    SameName(k, k);
  }

  /** A result that is not 0 names a difference. */
  lemma {:induction false} CompareTells(a: Json, b: Json)
    requires WellNamed(a) && WellNamed(b) && CompareValues(a, b) != 0
    ensures DifferSomewhere(CompareValues(a, b), Meaning(a), Meaning(b))
    decreases Height(a)
  {
    hide WellNamed, Sorted, CompareItems, CompareMembers, MeaningMembers, DifferSomewhere;
    var code := CompareValues(a, b);
    if !SameKind(a, b) {
      DifferHere(code, Meaning(a), Meaning(b));
    } else {
      match a
      case Arr(x) =>
        ArrBelow(x);
        WellNamedParts(a);
        WellNamedParts(b);
        var i := ItemsTell(x, b.items, Height(a));
        if code == -4 && |x| != |b.items| {
          DifferHere(code, Meaning(a), Meaning(b));
        } else {
          ItemPart(x, i);
          ItemPart(b.items, i);
          CompareTells(x[i], b.items[i]);
          DifferBelow(code, Meaning(a), Meaning(b), Index(i));
        }
      case Obj(x) =>
        SortedBelow(x);
        forall v, w | Height(v) < Height(a) && WellNamed(v) && WellNamed(w) && CompareValues(v, w) != 0
          ensures DifferSomewhere(CompareValues(v, w), Meaning(v), Meaning(w))
        {
          CompareTells(v, w);
        }
        MembersDiffer(x, b.members, Height(a));
      case _ => DifferHere(code, Meaning(a), Meaning(b));
    }
  }
}
