/** cJSONUtils_GenerateMergePatch: the patch it makes, and when merging it reaches the second document. */
module CjsonMergeDiff {
  import opened Wrappers
  import opened CjsonKeys
  import opened CjsonString
  import opened CjsonText
  import opened CjsonDoc
  import opened CjsonPointer
  import opened CjsonCompare
  import opened CjsonPatch
  import opened CjsonDiff
  import opened CjsonPatchRun
  import opened CjsonMerge

  // ---------------------------------------------------------------- generating

  /** strcmp */
  function Strcmp(a: string, b: string): int {
    if a == [] && b == [] then 0
    else if a == [] then 0 - b[0] as int
    else if b == [] then a[0] as int
    else if a[0] == b[0] then Strcmp(a[1..], b[1..])
    else a[0] as int - b[0] as int
  }

  /** Which name comes first in the walk. */
  function Order(a: seq<Member>, b: seq<Member>): int
    requires a != [] || b != []
  {
    if a == [] then 1 else if b == [] then -1 else Strcmp(a[0].key, b[0].key)
  }

  /** cJSONUtils_GenerateMergePatch of two documents; None is a null pointer: nothing to change. */
  function GenerateMergePatch(from: Json, to: Json): Option<Json>
    decreases Height(from), 1, 0
  {
    if !to.Obj? || !from.Obj? then Some(to)
    else
      SortedBelow(from.members);
      var patch := MergeDiff(Sorted(from.members), Sorted(to.members), Height(from));
      if patch == [] then None else Some(Obj(patch))
  }

  function MergeDiff(a: seq<Member>, b: seq<Member>, h: nat): seq<Member>
    requires MembersBelow(a, h)
    decreases h, 0, |a| + |b|
  {
    if a == [] && b == [] then []
    else if Order(a, b) < 0 then [Member(a[0].key, Null)] + MergeDiff(a[1..], b, h)
    else if Order(a, b) > 0 then [b[0]] + MergeDiff(a, b[1..], h)
    else Changed(a[0], b[0], h) + MergeDiff(a[1..], b[1..], h)
  }

  /** The patch for a member both objects have: none if the values are the same. */
  function Changed(a: Member, b: Member, h: nat): seq<Member>
    requires Height(a.value) < h
    decreases Height(a.value), 2
  {
    if CompareValues(a.value, b.value) == 0 then []
    else match GenerateMergePatch(a.value, b.value)
      case None => []
      case Some(p) => [Member(b.key, p)]
  }

  // ---------------------------------------------------------------- what the patch means

  /** The difference of two documents as a merge patch. */
  function Difference(f: Doc, t: Doc): Option<Doc>
    decreases f, 1
  {
    if !t.Object? || !f.Object? then Some(t)
    else
      var m := map k | k in f.members.Keys + t.members.Keys && ChangeAt(f.members, t.members, k).Some? ::
                 ChangeAt(f.members, t.members, k).value;
      if m == map[] then None else Some(Object(m))
  }

  function ChangeAt(f: map<string, Entry>, t: map<string, Entry>, k: string): Option<Entry>
    decreases Object(f), 0
  {
    if k !in t then (if k in f then Some(Entry(f[k].name, Leaf(Null))) else None)
    else if k !in f then Some(t[k])
    else if f[k].doc == t[k].doc then None
    else match Difference(f[k].doc, t[k].doc)
      case None => None
      case Some(d) => Some(Entry(t[k].name, d))
  }

  // ---------------------------------------------------------------- when it is exact

  /** No object in it, outside arrays, has a null member. */
  predicate NoNulls(t: Doc)
    decreases t
  {
    t.Object? ==> forall k :: k in t.members ==> t.members[k].doc != Leaf(Null) && NoNulls(t.members[k].doc)
  }

  /** Every null member the second document has outside arrays is there in the first already. */
  predicate Lossless(f: Doc, t: Doc)
    decreases t
  {
    t.Object? ==>
      forall k :: k in t.members ==>
        if f.Object? && k in f.members then
          f.members[k].doc == t.members[k].doc
          || (t.members[k].doc != Leaf(Null) && Lossless(f.members[k].doc, t.members[k].doc))
        else t.members[k].doc != Leaf(Null) && NoNulls(t.members[k].doc)
  }

  /** Both comparisons of names agree on them. */
  predicate SameSign(x: int, y: int) {
    (x < 0 <==> y < 0) && (x > 0 <==> y > 0)
  }

  ghost predicate SameOrder(names: iset<string>) {
    forall a, b :: a in names && b in names ==> SameSign(Strcmp(a, b), Compare(a, b))
  }

  ghost predicate Agreeing(names: iset<string>) {
    SameOrder(names) && OneSpelling(names)
  }

  lemma {:induction false} StrcmpIsEquality(a: string, b: string)
    requires NulFree(a) && NulFree(b)
    ensures Strcmp(a, b) == 0 <==> a == b
    decreases |a|
  {
    if a != [] && b != [] && a[0] == b[0] {
      StrcmpIsEquality(a[1..], b[1..]);
      assert a == [a[0]] + a[1..] && b == [b[0]] + b[1..];
    } else {
      assert a != [] ==> a[0] != '\0';
      assert b != [] ==> b[0] != '\0';
    }
  }

  lemma {:induction false} StrcmpFlips(a: string, b: string)
    ensures Strcmp(a, b) == -Strcmp(b, a)
    decreases |a|
  {
    if a != [] && b != [] && a[0] == b[0] {
      StrcmpFlips(a[1..], b[1..]);
    }
  }

  lemma Spells(names: iset<string>)
    requires Agreeing(names)
    ensures OneSpelling(names)
  {
  }

  lemma OrderSpells(names: iset<string>)
    requires SameOrder(names) && forall n :: n in names ==> NulFree(n)
    ensures Agreeing(names)
  {
    hide Fold, Strcmp, Compare, NulFree;
    forall a, b | a in names && b in names && Fold(a) == Fold(b) ensures a == b {
      SameName(a, b);
      assert SameSign(Strcmp(a, b), Compare(a, b));
      StrcmpIsEquality(a, b);
    }
  }

  /** Merging into nothing, or into something that is no object, drops exactly the nulls. */
  lemma {:induction false} MergeIntoNothing(x: Option<Doc>, t: Doc)
    requires x.Some? ==> !x.value.Object?
    ensures Rfc7396(x, t) == t <==> NoNulls(t)
    decreases t
  {
    if t.Object? {
      var r := Rfc7396(x, t).members;
      forall k | k in t.members
        ensures Rfc7396(None, t.members[k].doc) == t.members[k].doc <==> NoNulls(t.members[k].doc)
      {
        MergeIntoNothing(None, t.members[k].doc);
      }
      if NoNulls(t) {
        assert r == t.members;
      } else {
        var k :| k in t.members && !(t.members[k].doc != Leaf(Null) && NoNulls(t.members[k].doc));
        assert k !in r || r[k] != t.members[k];
      }
    }
  }

  lemma DifferenceNone(f: Doc, t: Doc, names: iset<string>)
    requires OneSpelling(names) && DocNamedIn(f, names) && DocNamedIn(t, names)
    ensures Difference(f, t) == None ==> f == t
    decreases f
  {
    if t.Object? && f.Object? && Difference(f, t) == None {
      var m := map k | k in f.members.Keys + t.members.Keys && ChangeAt(f.members, t.members, k).Some? ::
                 ChangeAt(f.members, t.members, k).value;
      assert m == map[];
      forall k ensures ChangeAt(f.members, t.members, k) == None {
        assert k !in m;
        ChangeInside(f.members, t.members, k);
      }
      forall k ensures k in f.members <==> k in t.members {
        assert ChangeAt(f.members, t.members, k) == None;
      }
      forall k | k in f.members ensures f.members[k] == t.members[k] {
        assert ChangeAt(f.members, t.members, k) == None;
        DifferenceNone(f.members[k].doc, t.members[k].doc, names);
      }
      assert f.members == t.members;
    }
  }

  /** What merging the difference makes of one name. */
  lemma MergedName(f: map<string, Entry>, t: map<string, Entry>, k: string)
    requires Difference(Object(f), Object(t)).Some?
    ensures var r := Rfc7396(Some(Object(f)), Difference(Object(f), Object(t)).value);
      var c := ChangeAt(f, t, k);
      && r.Object?
      && (k in r.members <==> if c.Some? then c.value.doc != Leaf(Null) else k in f)
      && (k in r.members ==>
            r.members[k] == if c.Some? then
                              Entry(c.value.name, Rfc7396(if k in f then Some(f[k].doc) else None, c.value.doc))
                            else f[k])
  {
    hide Rfc7396, ChangeAt;
    var p := Difference(Object(f), Object(t)).value.members;
    assert k in p <==> ChangeAt(f, t, k).Some? by { ChangeInside(f, t, k); }
    RfcName(f, p, k);
  }

  lemma ChangeInside(f: map<string, Entry>, t: map<string, Entry>, k: string)
    ensures ChangeAt(f, t, k).Some? ==> k in f.Keys + t.Keys
  {
  }

  lemma RfcName(f: map<string, Entry>, p: map<string, Entry>, k: string)
    ensures var r := Rfc7396(Some(Object(f)), Object(p));
      && r.Object?
      && (k in r.members <==> if k in p then p[k].doc != Leaf(Null) else k in f)
      && (k in r.members ==>
            r.members[k] == if k in p then
                              Entry(p[k].name, Rfc7396(if k in f then Some(f[k].doc) else None, p[k].doc))
                            else f[k])
  {
  }

  /** Merging the difference into the first document gives the second exactly under that condition. */
  lemma {:induction false} MergeExactly(f: Doc, t: Doc, names: iset<string>)
    requires OneSpelling(names) && DocNamedIn(f, names) && DocNamedIn(t, names)
    requires Difference(f, t).Some?
    ensures Rfc7396(Some(f), Difference(f, t).value) == t <==> Lossless(f, t)
    decreases f, 2
  {
    hide Rfc7396;
    if !f.Object? {
      MergeIntoNothing(Some(f), t);
      LosslessFromOther(f, t);
    } else if !t.Object? {
      MergeIntoNothing(None, t);
      RfcLeaf(Some(f), t);
    } else {
      MergeExactlyObjects(f.members, t.members, names);
    }
  }

  lemma LosslessFromOther(f: Doc, t: Doc)
    requires !f.Object?
    ensures Lossless(f, t) <==> NoNulls(t)
  {
  }

  ghost predicate NameLossless(f: map<string, Entry>, t: map<string, Entry>, k: string)
    requires k in t
  {
    if k in f then f[k].doc == t[k].doc || (t[k].doc != Leaf(Null) && Lossless(f[k].doc, t[k].doc))
    else t[k].doc != Leaf(Null) && NoNulls(t[k].doc)
  }

  lemma LosslessObjects(f: map<string, Entry>, t: map<string, Entry>)
    ensures Lossless(Object(f), Object(t)) <==> forall k :: k in t ==> NameLossless(f, t, k)
  {
  }

  /** One name of two objects. */
  lemma NameExactly(f: map<string, Entry>, t: map<string, Entry>, k: string, names: iset<string>)
    requires OneSpelling(names) && DocNamedIn(Object(f), names) && DocNamedIn(Object(t), names)
    requires Difference(Object(f), Object(t)).Some?
    ensures var r := Rfc7396(Some(Object(f)), Difference(Object(f), Object(t)).value);
      && r.Object?
      && (k !in t ==> k !in r.members)
      && (k in t ==> (k in r.members && r.members[k] == t[k] <==> NameLossless(f, t, k)))
    decreases Object(f), 0
  {
    hide Rfc7396, Difference, NoNulls, Lossless;
    MergedName(f, t, k);
    if k in t {
      if k !in f {
        MergeIntoNothing(None, t[k].doc);
      } else if f[k].doc != t[k].doc {
        DifferenceNone(f[k].doc, t[k].doc, names);
        MergeExactly(f[k].doc, t[k].doc, names);
        NullDifference(f[k].doc, t[k].doc);
      }
    }
  }

  lemma NullDifference(f: Doc, t: Doc)
    ensures Difference(f, t) == Some(Leaf(Null)) <==> t == Leaf(Null)
  {
  }

  lemma MergeExactlyObjects(f: map<string, Entry>, t: map<string, Entry>, names: iset<string>)
    requires OneSpelling(names) && DocNamedIn(Object(f), names) && DocNamedIn(Object(t), names)
    requires Difference(Object(f), Object(t)).Some?
    ensures Rfc7396(Some(Object(f)), Difference(Object(f), Object(t)).value) == Object(t)
       <==> Lossless(Object(f), Object(t))
    decreases Object(f), 1
  {
    hide Rfc7396, Difference, NoNulls, Lossless, DocNamedIn, NameLossless;
    var r := Rfc7396(Some(Object(f)), Difference(Object(f), Object(t)).value);
    LosslessObjects(f, t);
    NameExactly(f, t, "", names);
    forall k
      ensures (k !in t ==> k !in r.members)
      ensures (k in t ==> (k in r.members && r.members[k] == t[k] <==> NameLossless(f, t, k)))
    {
      NameExactly(f, t, k, names);
    }
    if Lossless(Object(f), Object(t)) {
      assert r.members == t;
    }
  }

  /** Without null members nothing can be lost. */
  lemma {:induction false} NoNullsLossless(f: Doc, t: Doc)
    requires NoNulls(t)
    ensures Lossless(f, t)
    decreases t
  {
    if t.Object? {
      forall k | k in t.members && f.Object? && k in f.members ensures Lossless(f.members[k].doc, t.members[k].doc) {
        NoNullsLossless(f.members[k].doc, t.members[k].doc);
      }
    }
  }

  // ---------------------------------------------------------------- the program makes that difference

  predicate LowerName(k: string) {
    Fold(k) == k
  }

  lemma LowerNameParts(k: string)
    requires LowerName(k) && k != []
    ensures LowerName(k[1..]) && Lower(k[0]) == k[0]
  {
    assert Fold(k)[0] == k[0];
    assert Fold(k[1..]) == Fold(k)[1..];
  }

  /** On names without upper-case letters both comparisons of names agree. */
  lemma {:induction false} StrcmpIsCompare(a: string, b: string)
    requires LowerName(a) && LowerName(b)
    ensures Strcmp(a, b) == Compare(a, b)
    decreases |a|
  {
    hide Lower, LowerName;
    if a != [] { LowerNameParts(a); }
    if b != [] { LowerNameParts(b); }
    if a != [] && b != [] {
      StrcmpIsCompare(a[1..], b[1..]);
    }
  }

  lemma OrderIsDiff(a: seq<Member>, b: seq<Member>, names: iset<string>)
    requires Agreeing(names) && MembersNamedIn(a, names) && MembersNamedIn(b, names) && (a != [] || b != [])
    ensures SameSign(Order(a, b), Diff(a, b))
  {
    hide NamedIn, Strcmp, Compare, NulFree, OneSpelling;
    if a != [] && b != [] {
      assert SameSign(Strcmp(a[0].key, b[0].key), Compare(a[0].key, b[0].key));
    }
  }

  lemma Prepended(x: Member, s: seq<Member>)
    requires WellNamed(Obj(s)) && WellNamed(x.value) && NulFree(x.key) && Fold(x.key) !in MeaningMembers(s)
    ensures WellNamed(Obj([x] + s))
    ensures MeaningMembers([x] + s) == MeaningMembers(s)[Fold(x.key) := Entry(x.key, Meaning(x.value))]
  {
    hide Fold, Meaning;
    assert ([x] + s)[1..] == s;
    MapOf(s);
  }

  /** The members s of a merge patch say of k what the difference of both objects says. */
  ghost predicate SaysOf(s: seq<Member>, a: map<string, Entry>, b: map<string, Entry>, k: string) {
    var c, m := ChangeAt(a, b, k), MeaningMembers(s);
    (k in m <==> c.Some?) && (k in m ==> m[k] == c.value)
  }

  ghost predicate Lists(a: seq<Member>, b: seq<Member>, h: nat, names: iset<string>) {
    && MembersBelow(a, h) && Strict(a) && Strict(b) && Agreeing(names)
    && MembersNamedIn(a, names) && MembersNamedIn(b, names)
  }

  lemma TailLists(a: seq<Member>, b: seq<Member>, h: nat, names: iset<string>)
    requires Lists(a, b, h, names)
    ensures a != [] ==>
      && Lists(a[1..], b, h, names) && NulFree(a[0].key) && a[0].key in names && NamedIn(a[0].value, names)
      && Height(a[0].value) < h
    ensures b != [] ==>
      Lists(a, b[1..], h, names) && NulFree(b[0].key) && b[0].key in names && NamedIn(b[0].value, names)
  {
    hide NamedIn, Agreeing, Compare;
  }

  lemma NotIn(s: seq<Member>, f: string)
    requires Strict(s) && First(s, f) == |s|
    ensures f !in MeaningMembers(s)
  {
    hide Fold, MeaningMembers, Strict, First;
    StrictDistinct(s);
    FirstIs(s, f);
  }

  lemma NoneToSay(h: nat, k: string)
    ensures MergeDiff([], [], h) == [] && WellNamed(Obj([])) && SaysOf([], map[], map[], k)
    ensures MeaningMembers([]) == map[]
  {
  }

  /** One member in front, and what it changes. */
  lemma SaysMore(x: Member, s: seq<Member>, a: map<string, Entry>, b: map<string, Entry>,
                 a': map<string, Entry>, b': map<string, Entry>, k: string)
    requires WellNamed(Obj(s)) && WellNamed(x.value) && NulFree(x.key)
    requires SaysOf(s, a, b, k) && SaysOf(s, a, b, Fold(x.key))
    requires Fold(x.key) !in a && Fold(x.key) !in b
    requires forall f :: f != Fold(x.key) ==> (f in a <==> f in a') && (f in b <==> f in b')
    requires forall f :: f != Fold(x.key) ==> (f in a ==> a[f] == a'[f]) && (f in b ==> b[f] == b'[f])
    requires ChangeAt(a', b', Fold(x.key)) == Some(Entry(x.key, Meaning(x.value)))
    ensures WellNamed(Obj([x] + s)) && SaysOf([x] + s, a', b', k)
  {
    hide Fold, Meaning, MeaningMembers, WellNamed;
    Prepended(x, s);
    SameChange(a, b, a', b', k);
  }

  lemma SameChange(a: map<string, Entry>, b: map<string, Entry>, a': map<string, Entry>, b': map<string,
    Entry>, k: string)
    ensures (k in a <==> k in a') && (k in b <==> k in b') && (k in a ==> a[k] == a'[k]) && (k in b ==> b[k] == b'[k])
      ==> ChangeAt(a, b, k) == ChangeAt(a', b', k)
  {
    hide Difference;
  }

  /** Nothing changed at one name. */
  lemma SaysSame(f: string, s: seq<Member>, a: map<string, Entry>, b: map<string, Entry>,
                 a': map<string, Entry>, b': map<string, Entry>, k: string)
    requires SaysOf(s, a, b, k) && SaysOf(s, a, b, f) && f !in a && f !in b
    requires forall g :: g != f ==> (g in a <==> g in a') && (g in b <==> g in b')
    requires forall g :: g != f ==> (g in a ==> a[g] == a'[g]) && (g in b ==> b[g] == b'[g])
    requires ChangeAt(a', b', f) == None
    ensures SaysOf(s, a', b', k)
  {
    hide MeaningMembers;
    SameChange(a, b, a', b', k);
  }

  /** The walk over both sorted member lists. */
  lemma {:induction false} MergeDiffMeans(a: seq<Member>, b: seq<Member>, h: nat, k: string, names: iset<string>)
    requires Lists(a, b, h, names)
    ensures WellNamed(Obj(MergeDiff(a, b, h)))
    ensures SaysOf(MergeDiff(a, b, h), MeaningMembers(a), MeaningMembers(b), k)
    decreases h, 0, |a| + |b|
  {
    hide Fold, Meaning, MeaningMembers, WellNamed, NamedIn, Agreeing, SaysOf, ChangeAt, MergeDiff, Changed,
      Order, Strict, First;
    if a == [] && b == [] {
      NoneToSay(h, k);
    } else {
      TailLists(a, b, h, names);
      OrderIsDiff(a, b, names);
      DiffMeans(a, b);
      WalkStep(a, b, h, names);
      if a != [] { StrictTail(a); MembersParts(a); NotIn(a[1..], Fold(a[0].key)); }
      if b != [] { StrictTail(b); MembersParts(b); NotIn(b[1..], Fold(b[0].key)); }
      if Order(a, b) < 0 {
        var f := Fold(a[0].key);
        NotIn(b, f);
        MergeDiffMeans(a[1..], b, h, k, names);
        MergeDiffMeans(a[1..], b, h, f, names);
        ChangeRemoved(MeaningMembers(a), MeaningMembers(b), f);
        SaysMore(Member(a[0].key, Null), MergeDiff(a[1..], b, h), MeaningMembers(a[1..]), MeaningMembers(b),
                 MeaningMembers(a), MeaningMembers(b), k);
      } else if Order(a, b) > 0 {
        var f := Fold(b[0].key);
        NotIn(a, f);
        MergeDiffMeans(a, b[1..], h, k, names);
        MergeDiffMeans(a, b[1..], h, f, names);
        ChangeAdded(MeaningMembers(a), MeaningMembers(b), f);
        NamedInParts(b[0].value, names);
        SaysMore(b[0], MergeDiff(a, b[1..], h), MeaningMembers(a), MeaningMembers(b[1..]),
                 MeaningMembers(a), MeaningMembers(b), k);
      } else {
        SameMember(a, b, h, k, names);
      }
    }
  }

  lemma WalkStep(a: seq<Member>, b: seq<Member>, h: nat, names: iset<string>)
    requires Lists(a, b, h, names) && (a != [] || b != [])
    ensures WellNamed(Null) && Meaning(Null) == Leaf(Null)
    ensures Order(a, b) < 0 ==>
      a != [] && MembersBelow(a[1..], h) && MergeDiff(a, b, h) == [Member(a[0].key, Null)] + MergeDiff(a[1..], b, h)
    ensures Order(a, b) > 0 ==> b != [] && MergeDiff(a, b, h) == [b[0]] + MergeDiff(a, b[1..], h)
    ensures Order(a, b) == 0 ==>
      a != [] && b != [] && Height(a[0].value) < h && MembersBelow(a[1..], h)
      && MergeDiff(a, b, h) == Changed(a[0], b[0], h) + MergeDiff(a[1..], b[1..], h)
  {
    hide NamedIn, Agreeing, Changed, Compare;
    OrderIsDiff(a, b, names);
    DiffMeans(a, b);
  }

  lemma ChangeRemoved(a: map<string, Entry>, b: map<string, Entry>, f: string)
    requires f in a && f !in b
    ensures ChangeAt(a, b, f) == Some(Entry(a[f].name, Leaf(Null)))
  {
  }

  lemma ChangeAdded(a: map<string, Entry>, b: map<string, Entry>, f: string)
    requires f !in a && f in b
    ensures ChangeAt(a, b, f) == Some(b[f])
  {
  }

  lemma ChangeBoth(a: map<string, Entry>, b: map<string, Entry>, f: string)
    requires f in a && f in b
    ensures a[f].doc == b[f].doc ==> ChangeAt(a, b, f) == None
    ensures a[f].doc != b[f].doc && Difference(a[f].doc, b[f].doc).Some? ==>
      ChangeAt(a, b, f) == Some(Entry(b[f].name, Difference(a[f].doc, b[f].doc).value))
  {
    hide Difference;
  }

  /** A member both objects have. */
  lemma SameMember(a: seq<Member>, b: seq<Member>, h: nat, k: string, names: iset<string>)
    requires Lists(a, b, h, names) && (a != [] || b != []) && Order(a, b) == 0
    ensures WellNamed(Obj(MergeDiff(a, b, h)))
    ensures SaysOf(MergeDiff(a, b, h), MeaningMembers(a), MeaningMembers(b), k)
    decreases h, 0, |a| + |b|, 0
  {
    hide Fold, Meaning, MeaningMembers, WellNamed, NamedIn, Agreeing, SaysOf, ChangeAt, MergeDiff, Order, Strict, First;
    hide CompareValues, GenerateMergePatch, Difference, DocNamedIn;
    TailLists(a, b, h, names);
    OrderIsDiff(a, b, names);
    DiffMeans(a, b);
    WalkStep(a, b, h, names);
    StrictTail(a);
    StrictTail(b);
    MembersParts(a);
    MembersParts(b);
    TailLists(a[1..], b, h, names);
    var f := Fold(a[0].key);
    var rest := MergeDiff(a[1..], b[1..], h);
    NotIn(a[1..], f);
    NotIn(b[1..], f);
    MergeDiffMeans(a[1..], b[1..], h, k, names);
    MergeDiffMeans(a[1..], b[1..], h, f, names);
    Spells(names);
    CompareNamed(a[0].value, b[0].value, names);
    ChangeBoth(MeaningMembers(a), MeaningMembers(b), f);
    if CompareValues(a[0].value, b[0].value) == 0 {
      assert Changed(a[0], b[0], h) + rest == rest;
      SaysSame(f, rest, MeaningMembers(a[1..]), MeaningMembers(b[1..]), MeaningMembers(a), MeaningMembers(b), k);
    } else {
      GenerateMeans(a[0].value, b[0].value, names);
      MeaningNamedIn(a[0].value, names);
      MeaningNamedIn(b[0].value, names);
      DifferenceNone(Meaning(a[0].value), Meaning(b[0].value), names);
      SaysMore(Member(b[0].key, GenerateMergePatch(a[0].value, b[0].value).value), rest,
               MeaningMembers(a[1..]), MeaningMembers(b[1..]), MeaningMembers(a), MeaningMembers(b), k);
    }
  }

  /** The generated merge patch means the difference of both documents. */
  lemma {:induction false} GenerateMeans(from: Json, to: Json, names: iset<string>)
    requires Agreeing(names) && NamedIn(from, names) && NamedIn(to, names)
    ensures MeaningOf(GenerateMergePatch(from, to)) == Difference(Meaning(from), Meaning(to))
    ensures GenerateMergePatch(from, to).Some? ==> WellNamed(GenerateMergePatch(from, to).value)
    decreases Height(from), 1
  {
    hide NamedIn, Sorted, MergeDiff, MeaningMembers, WellNamed;
    NamedInParts(to, names);
    if to.Obj? && from.Obj? {
      GenerateObject(from.members, to.members, names);
    } else {
      NotBothObjects(from, to);
    }
  }

  lemma NotBothObjects(from: Json, to: Json)
    requires !to.Obj? || !from.Obj?
    ensures Difference(Meaning(from), Meaning(to)) == Some(Meaning(to))
  {
  }

  lemma GenerateObject(a: seq<Member>, b: seq<Member>, names: iset<string>)
    requires Agreeing(names) && NamedIn(Obj(a), names) && NamedIn(Obj(b), names)
    ensures MeaningOf(GenerateMergePatch(Obj(a), Obj(b))) == Difference(Meaning(Obj(a)), Meaning(Obj(b)))
    ensures GenerateMergePatch(Obj(a), Obj(b)).Some? ==> WellNamed(GenerateMergePatch(Obj(a), Obj(b)).value)
    decreases Height(Obj(a)), 0
  {
    hide NamedIn, Sorted, MergeDiff, MeaningMembers, WellNamed, SaysOf, ChangeAt, Strict;
    var h := Height(Obj(a));
    NamedInParts(Obj(a), names);
    NamedInParts(Obj(b), names);
    SortedBelow(a);
    SortedNamedIn(a, names);
    SortedNamedIn(b, names);
    SortedStrict(a);
    SortedStrict(b);
    OrderIrrelevant(a, Sorted(a));
    OrderIrrelevant(b, Sorted(b));
    var s := MergeDiff(Sorted(a), Sorted(b), h);
    MergeDiffMeans(Sorted(a), Sorted(b), h, "", names);
    forall k ensures SaysOf(s, MeaningMembers(a), MeaningMembers(b), k) {
      MergeDiffMeans(Sorted(a), Sorted(b), h, k, names);
    }
    DifferenceIs(s, MeaningMembers(a), MeaningMembers(b));
  }

  lemma DifferenceIs(s: seq<Member>, a: map<string, Entry>, b: map<string, Entry>)
    requires forall k :: SaysOf(s, a, b, k)
    ensures Difference(Object(a), Object(b)) == if s == [] then None else Some(Object(MeaningMembers(s)))
  {
    hide MeaningMembers, ChangeAt;
    var m := map k | k in a.Keys + b.Keys && ChangeAt(a, b, k).Some? :: ChangeAt(a, b, k).value;
    var w := MeaningMembers(s);
    forall k ensures k in m <==> k in w {
      assert SaysOf(s, a, b, k);
      ChangeInside(a, b, k);
    }
    forall k | k in m ensures m[k] == w[k] {
      assert SaysOf(s, a, b, k);
    }
    assert m == w;
    EmptyMeaning(s);
  }

  lemma EmptyMeaning(s: seq<Member>)
    ensures MeaningMembers(s) == map[] <==> s == []
  {
    if s != [] {
      assert Fold(s[0].key) in MeaningMembers(s);
    }
  }

  /** What generating and merging promise of two documents: there is no patch only for equal ones, and merging
      the patch into the first gives the second up to member order exactly if every null member the second has
      outside arrays is in the first already. */
  ghost predicate RoundTrips(from: Json, to: Json) {
    match GenerateMergePatch(from, to)
    case None => Meaning(from) == Meaning(to)
    case Some(patch) =>
      && WellNamed(MergePatch(Some(from), patch))
      && (Meaning(MergePatch(Some(from), patch)) == Meaning(to) <==> Lossless(Meaning(from), Meaning(to)))
  }

  lemma MergeRoundTrip(from: Json, to: Json, names: iset<string>)
    requires SameOrder(names) && forall n :: n in names ==> NulFree(n)
    requires WellNamed(from) && WellNamed(to) && NamesIn(from, names) && NamesIn(to, names)
    ensures RoundTrips(from, to)
  {
    hide SameOrder, Agreeing, OneSpelling, NamesIn, Meaning, WellNamed, GenerateMergePatch, Difference, Lossless,
      Rfc7396, DocNamedIn, MergePatch;
    OrderSpells(names);
    GenerateMeans(from, to, names);
    MeaningNamedIn(from, names);
    MeaningNamedIn(to, names);
    Spells(names);
    match GenerateMergePatch(from, to)
    case None => DifferenceNone(Meaning(from), Meaning(to), names);
    case Some(patch) =>
      MergeIsRfc(Some(from), patch);
      MergeExactly(Meaning(from), Meaning(to), names);
  }

  // ---------------------------------------------------------------- which names survive

  /** The sort ignores case and the walk does not: of two names they order differently, the one that did not
      change is first added and then removed. */
  lemma MisorderedLosesMember(a: string, b: string)
    requires NulFree(a) && NulFree(b) && Compare(a, b) < 0 < Strcmp(a, b)
    ensures var from, to := Obj([Member(b, True), Member(a, Null)]), Obj([Member(b, True)]);
      var patch := Obj([Member(b, True), Member(a, Null), Member(b, Null)]);
      && WellNamed(from) && WellNamed(to)
      && GenerateMergePatch(from, to) == Some(patch) && MergePatch(Some(from), patch) == Obj([])
      && !RoundTrips(from, to)
  {
    hide Fold, Compare, Strcmp, Sorted, MergeDiff, MergeMembers, Height, HeightMembers, NulFree, Lossless,
      MeaningMembers;
    var x, y, none := Member(b, True), Member(a, Null), Member(b, Null);
    SameName(a, b);
    CompareFlips(a, b);
    SortTwo(x, y);
    HeightTwo(x, y);
    WalkTwo(y, x, none);
    MergeTwo(y, x, none);
    LostTwo(x, y);
  }

  /** Two spellings of one name: the member is first added and then removed. */
  lemma RespelledLosesMember(a: string, b: string)
    requires NulFree(a) && NulFree(b) && Compare(a, b) == 0 < Strcmp(a, b)
    ensures var from, to := Obj([Member(a, True)]), Obj([Member(b, True)]);
      var patch := Obj([Member(b, True), Member(a, Null)]);
      && WellNamed(from) && WellNamed(to)
      && GenerateMergePatch(from, to) == Some(patch) && MergePatch(Some(from), patch) == Obj([])
      && !RoundTrips(from, to)
  {
    hide Fold, Compare, Strcmp, Sorted, MergeDiff, MergeMembers, Height, HeightMembers, NulFree, Lossless,
      MeaningMembers;
    SameName(a, b);
    SortOne(Member(a, True));
    SortOne(Member(b, True));
    WalkOne(a, b);
    MergeOne(a, b);
    LostOne(a, b);
  }

  lemma SortOne(x: Member)
    requires x.value == True
    ensures Sorted([x]) == [x] && Height(Obj([x])) == 1
  {
    assert [x][1..] == [];
    assert HeightMembers([]) == 0;
    assert HeightMembers([x]) == 0;
  }

  lemma WalkOne(a: string, b: string)
    requires Strcmp(a, b) > 0
    ensures MergeDiff([Member(a, True)], [Member(b, True)], 1) == [Member(b, True), Member(a, Null)]
  {
    hide Strcmp, CompareValues;
    var x, y, none := Member(a, True), Member(b, True), Member(a, Null);
    assert [x][1..] == [] && [y][1..] == [];
    assert MergeDiff([x], [], 1) == [none] + MergeDiff([], [], 1);
    assert MergeDiff([x], [y], 1) == [y] + MergeDiff([x], [], 1);
  }

  lemma MergeOne(a: string, b: string)
    requires Fold(a) == Fold(b)
    ensures MergeMembers([Member(a, True)], [Member(b, True), Member(a, Null)]) == []
  {
    hide MergeMembers, Removed, Found;
    var x, y, none := Member(a, True), Member(b, True), Member(a, Null);
    SameFirstGoes(x, b);
    SameFirstGoes(y, a);
    assert [y, none] == [y] + [none] && [] + [y] == [y];
    MergeStep([x], y, [none]);
    assert [none] == [none] + [];
    MergeStep([y], none, []);
    MergeNothing([]);
  }

  lemma SameFirstGoes(x: Member, k: string)
    requires Fold(x.key) == Fold(k)
    ensures Removed([x], k) == []
  {
    hide Fold;
    assert First([x], Fold(k)) == 0 && Without([x], 0) == [];
  }

  /** Nothing stood in the way of that member. */
  lemma LostTwo(x: Member, y: Member)
    requires x.value == True && y.value == Null && NulFree(x.key) && NulFree(y.key) && Fold(x.key) != Fold(y.key)
    ensures Lossless(Meaning(Obj([x, y])), Meaning(Obj([x]))) && Meaning(Obj([x])) != Meaning(Obj([]))
  {
    hide Fold;
    assert [x, y][1..] == [y] && [x][1..] == [] && [y][1..] == [];
    var f, e := Fold(x.key), Entry(x.key, Leaf(True));
    assert MeaningMembers([x]) == map[f := e];
    assert MeaningMembers([x, y])[f] == e;
  }

  lemma LostOne(a: string, b: string)
    requires Fold(a) == Fold(b)
    ensures var d, e := Meaning(Obj([Member(a, True)])), Meaning(Obj([Member(b, True)]));
      Lossless(d, e) && e != Meaning(Obj([]))
  {
    hide Fold;
    assert [Member(a, True)][1..] == [] && [Member(b, True)][1..] == [];
    assert Fold(b) in MeaningMembers([Member(b, True)]);
  }

  /** All documents with names from a set survive generating and merging exactly if strcmp and strcasecmp agree
      on the names of the set. */
  lemma MergeRoundTripExactly(names: iset<string>)
    requires forall n :: n in names ==> NulFree(n)
    ensures (forall from, to ::
               WellNamed(from) && WellNamed(to) && NamesIn(from, names) && NamesIn(to, names) ==> RoundTrips(from, to))
       <==> SameOrder(names)
  {
    hide RoundTrips, WellNamed, Compare, Strcmp, NulFree;
    if SameOrder(names) {
      forall from, to | WellNamed(from) && WellNamed(to) && NamesIn(from, names) && NamesIn(to, names)
        ensures RoundTrips(from, to)
      {
        MergeRoundTrip(from, to, names);
      }
    } else {
      var a, b :| a in names && b in names && !SameSign(Strcmp(a, b), Compare(a, b));
      var from, to := Fails(a, b, names);
    }
  }

  lemma Fails(a: string, b: string, names: iset<string>) returns (from: Json, to: Json)
    requires a in names && b in names && NulFree(a) && NulFree(b) && !SameSign(Strcmp(a, b), Compare(a, b))
    ensures WellNamed(from) && WellNamed(to) && NamesIn(from, names) && NamesIn(to, names) && !RoundTrips(from, to)
  {
    hide RoundTrips, WellNamed, Compare, Strcmp, NulFree;
    CompareFlips(a, b);
    StrcmpFlips(a, b);
    StrcmpIsEquality(a, b);
    SameName(a, b);
    var x, y := if Strcmp(a, b) > 0 then a else b, if Strcmp(a, b) > 0 then b else a;
    if Compare(x, y) == 0 {
      from, to := Obj([Member(x, True)]), Obj([Member(y, True)]);
      RespelledLosesMember(x, y);
    } else {
      from, to := Obj([Member(y, True), Member(x, Null)]), Obj([Member(y, True)]);
      MisorderedLosesMember(x, y);
    }
  }

  /** Names without upper-case letters are such a set. */
  lemma LowerCaseAgrees(names: iset<string>)
    requires forall n :: n in names ==> LowerName(n)
    ensures SameOrder(names)
  {
    hide LowerName, Strcmp, Compare;
    forall a, b | a in names && b in names ensures SameSign(Strcmp(a, b), Compare(a, b)) {
      StrcmpIsCompare(a, b);
    }
  }

  lemma SortTwo(b: Member, a: Member)
    requires Compare(b.key, a.key) > 0 && Compare(a.key, b.key) < 0
    ensures Sorted([b, a]) == [a, b] && Sorted([b]) == [b]
  {
    hide Compare;
    var s := [b, a];
    assert !(Compare(KeyOf(s[0]), KeyOf(s[1])) < 0);
    assert !Increasing(KeyOf, s);
    assert s[..1] == [b] && s[1..] == [a];
    assert Sort(KeyOf, [b]) == [b] && Sort(KeyOf, [a]) == [a];
    assert [a][1..] == [];
    assert Merge(KeyOf, [b], [a]) == [a] + Merge(KeyOf, [b], []);
  }

  lemma HeightTwo(b: Member, a: Member)
    requires b.value == True && a.value == Null
    ensures Height(Obj([b, a])) == 1
  {
    assert [b, a][1..] == [a] && [a][1..] == [];
    assert HeightMembers([]) == 0;
    assert HeightMembers([a]) == 0;
    assert HeightMembers([b, a]) == 0;
  }

  lemma WalkTwo(a: Member, b: Member, none: Member)
    requires a.value == Null && b.value == True && none == Member(b.key, Null) && Strcmp(a.key, b.key) > 0
    ensures MergeDiff([a, b], [b], 1) == [b, a, none]
  {
    hide Strcmp, CompareValues;
    assert [b][1..] == [] && [a, b][1..] == [b];
    assert MergeDiff([b], [], 1) == [none] + MergeDiff([], [], 1);
    assert MergeDiff([a, b], [], 1) == [a] + MergeDiff([b], [], 1);
    assert MergeDiff([a, b], [b], 1) == [b] + MergeDiff([a, b], [], 1);
  }

  /** One member of a merge patch. */
  lemma MergeStep(t: seq<Member>, p: Member, rest: seq<Member>)
    ensures MergeMembers(t, [p] + rest) ==
      if p.value.Null? then MergeMembers(Removed(t, p.key), rest)
      else MergeMembers(Removed(t, p.key) + [Member(p.key, MergePatch(Found(t, p.key), p.value))], rest)
  {
    hide Removed, Found;
    assert ([p] + rest)[1..] == rest;
  }

  lemma FirstGoes(x: Member, s: seq<Member>)
    ensures Removed([x] + s, x.key) == s && Removed([x], x.key) == []
  {
    hide Fold;
    assert ([x] + s)[1..] == s;
    assert First([x] + s, Fold(x.key)) == 0 && First([x], Fold(x.key)) == 0;
    assert Without([x] + s, 0) == s && Without([x], 0) == [];
  }

  lemma MergeTwo(a: Member, b: Member, none: Member)
    requires a.value == Null && b.value == True && none == Member(b.key, Null) && Fold(b.key) != Fold(a.key)
    ensures MergeMembers([b, a], [b, a, none]) == []
  {
    hide MergeMembers, Removed, Found;
    assert [b, a] == [b] + [a] && [a, b] == [a] + [b] && [b, a, none] == [b] + [a, none] && [a, none] == [a] + [none];
    FirstGoes(b, [a]);
    FirstGoes(a, [b]);
    MergeStep([b, a], b, [a, none]);
    MergeStep([a, b], a, [none]);
    assert [none] == [none] + [];
    MergeStep([b], none, []);
    MergeNothing([]);
  }

  lemma MergeNothing(t: seq<Member>)
    ensures MergeMembers(t, []) == t
  {
  }
}
