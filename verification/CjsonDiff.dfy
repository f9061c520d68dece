/** cJSONUtils_GeneratePatches, and what applying its patches to the first document makes of it. */
module CjsonDiff {
  import opened Wrappers
  import opened CjsonKeys
  import opened CjsonString
  import opened CjsonText
  import opened CjsonDoc
  import opened CjsonPointer
  import opened CjsonCompare
  import opened CjsonPatch

  // ---------------------------------------------------------------- generating

  /** cJSONUtils_GeneratePatch */
  function PatchJson(op: string, path: string, value: Option<Json>): Json {
    Obj([Member("op", Str(op)), Member("path", Str(path))]
        + if value.Some? then [Member("value", value.value)] else [])
  }

  /** cJSONUtils_CompareToPatch */
  function Gen(path: string, from: Json, to: Json): seq<Json>
    decreases Height(from), 1, 0
  {
    if !SameKind(from, to) then [PatchJson("replace", path, Some(to))]
    else match from
      case Number(t) => if t != to.text then [PatchJson("replace", path, Some(to))] else []
      case Str(s) => if s != to.s then [PatchJson("replace", path, Some(to))] else []
      case Arr(items) =>
        ArrBelow(items);
        GenPairs(path, items, to.items, 0, Height(from))
        + GenRemoves(path, |to.items|, |items|) + GenAdds(path, to.items, |items|)
      case Obj(members) =>
        SortedBelow(members);
        GenMembers(path, Sorted(members), Sorted(to.members), Height(from))
      case _ => []
  }

  /** The elements both arrays have. */
  function GenPairs(path: string, a: seq<Json>, b: seq<Json>, c: nat, h: nat): seq<Json>
    requires ItemsBelow(a, h)
    decreases h, 0, |a| - c
  {
    if c >= |a| || c >= |b| then []
    else Gen(path + ['/'] + Digits(c), a[c], b[c]) + GenPairs(path, a, b, c + 1, h)
  }

  /** Leftover elements of the first array: the indices are those of the array before any removal. */
  function GenRemoves(path: string, c: nat, n: nat): seq<Json>
    decreases n - c
  {
    if c >= n then []
    else [PatchJson("remove", path + ['/'] + Escaped(Digits(c)), None)] + GenRemoves(path, c + 1, n)
  }

  /** Elements only the second array has. */
  function GenAdds(path: string, b: seq<Json>, c: nat): seq<Json>
    decreases |b| - c
  {
    if c >= |b| then []
    else [PatchJson("add", path + ['/'] + Escaped("-"), Some(b[c]))] + GenAdds(path, b, c + 1)
  }

  /** The walk over both sorted member lists. */
  function GenMembers(path: string, a: seq<Member>, b: seq<Member>, h: nat): seq<Json>
    requires MembersBelow(a, h)
    decreases h, 0, |a| + |b|
  {
    if a == [] && b == [] then []
    else if Diff(a, b) == 0 then
      Gen(path + ['/'] + Escaped(a[0].key), a[0].value, b[0].value) + GenMembers(path, a[1..], b[1..], h)
    else if Diff(a, b) < 0 then
      [PatchJson("remove", path + ['/'] + Escaped(a[0].key), None)] + GenMembers(path, a[1..], b, h)
    else
      [PatchJson("add", path + ['/'] + Escaped(b[0].key), Some(b[0].value))] + GenMembers(path, a, b[1..], h)
  }

  /** cJSONUtils_GeneratePatches */
  function GeneratePatches(from: Json, to: Json): seq<Json> {
    Gen("", from, to)
  }

  // ---------------------------------------------------------------- what applying them yields

  /** The elements at odd places. */
  function EveryOther<T>(s: seq<T>): seq<T> {
    if |s| < 2 then [] else [s[1]] + EveryOther(s[2..])
  }

  function Least(m: nat, n: nat): nat {
    if m < n then m else n
  }

  /** The document the patches make of `from`. */
  function Patched(from: Json, to: Json): (d: Doc)
    ensures from.Arr? && to.Arr? ==> d.List?
    ensures from.Obj? && to.Obj? ==> d.Object? && d.members.Keys == MeaningMembers(to.members).Keys
    decreases from
  {
    if !SameKind(from, to) then Meaning(to)
    else match from
      case Arr(a) =>
        var b := to.items;
        List(seq(Least(|a|, |b|), i requires 0 <= i < Least(|a|, |b|) => Patched(a[i], b[i]))
             + (if |a| > |b| then EveryOther(Docs(a[|b|..])) else Docs(b[|a|..])))
      case Obj(a) =>
        var b := to.members;
        var m := MeaningMembers(b);
        Object(map f | f in m ::
                 var i, j := First(a, f), First(b, f);
                 if i < |a| && j < |b| then Entry(a[i].key, Patched(a[i].value, b[j].value)) else m[f])
      case _ => Meaning(to)
  }

  /** No array is more than one element longer than its counterpart, and names equal ignoring case are
      spelled alike. */
  predicate Exact(from: Json, to: Json)
    decreases from
  {
    SameKind(from, to) ==>
      match from
      case Arr(a) =>
        && |a| <= |to.items| + 1
        && forall i :: 0 <= i < |a| && i < |to.items| ==> Exact(a[i], to.items[i])
      case Obj(a) =>
        forall i, j :: 0 <= i < |a| && 0 <= j < |to.members| && Fold(a[i].key) == Fold(to.members[j].key) ==>
          a[i].key == to.members[j].key && Exact(a[i].value, to.members[j].value)
      case _ => true
  }

  lemma {:induction false} EveryOtherLength<T>(s: seq<T>)
    ensures |EveryOther(s)| == |s| / 2
    decreases |s|
  {
    if |s| >= 2 {
      EveryOtherLength(s[2..]);
    }
  }

  lemma PatchedItems(a: seq<Json>, b: seq<Json>)
    ensures var p := Patched(Arr(a), Arr(b)).items;
      && |p| == Least(|a|, |b|) + (if |a| > |b| then (|a| - |b|) / 2 else |b| - |a|)
      && (forall i :: 0 <= i < |a| && i < |b| ==> p[i] == Patched(a[i], b[i]))
      && (forall i :: |a| <= i < |b| ==> p[i] == Meaning(b[i]))
  {
    hide Meaning;
    if |a| > |b| {
      EveryOtherLength(Docs(a[|b|..]));
    }
  }

  /** The patches reach the second document exactly under that condition. */
  lemma {:induction false} PatchedExactly(from: Json, to: Json)
    requires WellNamed(from) && WellNamed(to)
    ensures Patched(from, to) == Meaning(to) <==> Exact(from, to)
    decreases from
  {
    if SameKind(from, to) {
      match from
      case Arr(a) => PatchedExactlyItems(a, to.items);
      case Obj(a) => PatchedExactlyMembers(a, to.members);
      case _ =>
    }
  }

  lemma PatchedExactlyItems(a: seq<Json>, b: seq<Json>)
    requires WellNamed(Arr(a)) && WellNamed(Arr(b))
    ensures Patched(Arr(a), Arr(b)) == Meaning(Arr(b)) <==> Exact(Arr(a), Arr(b))
    decreases a
  {
    var p, m := Patched(Arr(a), Arr(b)).items, Meaning(Arr(b)).items;
    forall i | 0 <= i < |a| && i < |b| ensures Patched(a[i], b[i]) == Meaning(b[i]) <==> Exact(a[i], b[i]) {
      PatchedExactly(a[i], b[i]);
    }
    PatchedItems(a, b);
    if Exact(Arr(a), Arr(b)) {
      assert forall i :: 0 <= i < |m| ==> p[i] == m[i];
      assert p == m;
    } else if |a| <= |b| + 1 {
      var i :| 0 <= i < |a| && i < |b| && !Exact(a[i], b[i]);
      assert p[i] != m[i];
    } else {
      assert |p| != |m|;
    }
  }

  lemma PatchedAt(a: seq<Member>, b: seq<Member>, f: string)
    requires f in MeaningMembers(b)
    ensures var i, j := First(a, f), First(b, f);
      Patched(Obj(a), Obj(b)).members[f] ==
        if i < |a| && j < |b| then Entry(a[i].key, Patched(a[i].value, b[j].value)) else MeaningMembers(b)[f]
  {
    hide Fold, MeaningMembers, First;
  }

  /** What the patches make of one member. */
  lemma PatchedMember(a: seq<Member>, b: seq<Member>, j: nat)
    requires DistinctNames(a) && DistinctNames(b) && j < |b|
    ensures var f := Fold(b[j].key); var i := First(a, f);
      && f in MeaningMembers(b) && MeaningMembers(b)[f] == Entry(b[j].key, Meaning(b[j].value))
      && Patched(Obj(a), Obj(b)).members[f] ==
         if i < |a| then Entry(a[i].key, Patched(a[i].value, b[j].value)) else MeaningMembers(b)[f]
  {
    hide Fold, MeaningMembers, First, Patched, Meaning;
    MapOf(b);
    FirstUnique(b, j);
    PatchedAt(a, b, Fold(b[j].key));
  }

  lemma PatchedExactlyMembers(a: seq<Member>, b: seq<Member>)
    requires WellNamed(Obj(a)) && WellNamed(Obj(b))
    ensures Patched(Obj(a), Obj(b)) == Meaning(Obj(b)) <==> Exact(Obj(a), Obj(b))
    decreases a
  {
    hide Fold, MeaningMembers, Patched;
    var p, m := Patched(Obj(a), Obj(b)).members, MeaningMembers(b);
    if Exact(Obj(a), Obj(b)) {
      forall f | f in m ensures f in p && p[f] == m[f] {
        var j := NameOf(b, f);
        PatchedMember(a, b, j);
        var i := First(a, f);
        if i < |a| {
          PatchedExactly(a[i].value, b[j].value);
        }
      }
      assert p == m;
    } else {
      var i, j :| 0 <= i < |a| && 0 <= j < |b| && Fold(a[i].key) == Fold(b[j].key)
        && !(a[i].key == b[j].key && Exact(a[i].value, b[j].value));
      PatchedMember(a, b, j);
      FirstUnique(a, i);
      PatchedExactly(a[i].value, b[j].value);
      assert p[Fold(b[j].key)] != m[Fold(b[j].key)];
    }
  }

  lemma FirstUnique(members: seq<Member>, i: nat)
    requires DistinctNames(members) && i < |members|
    ensures First(members, Fold(members[i].key)) == i
  {
    hide Fold;
    var j := First(members, Fold(members[i].key));
  }
}
