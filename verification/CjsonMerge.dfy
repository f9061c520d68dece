/** JSON Merge Patch (RFC 7396): applying one, and documents whose names come from a set. */
module CjsonMerge {
  import opened Wrappers
  import opened CjsonKeys
  import opened CjsonString
  import opened CjsonText
  import opened CjsonDoc
  import opened CjsonPointer
  import opened CjsonCompare
  import opened CjsonPatch
  import opened CjsonDiff
  import opened CjsonPatchRun

  // ---------------------------------------------------------------- applying

  function Removed(t: seq<Member>, k: string): seq<Member> {
    if First(t, Fold(k)) < |t| then Without(t, First(t, Fold(k))) else t
  }

  function Found(t: seq<Member>, k: string): Option<Json> {
    if First(t, Fold(k)) < |t| then Some(t[First(t, Fold(k))].value) else None
  }

  /** cJSONUtils_MergePatch; no target is a null pointer. */
  function MergePatch(target: Option<Json>, patch: Json): Json
    decreases patch, 0
  {
    if !patch.Obj? then patch
    else Obj(MergeMembers(if target.Some? && target.value.Obj? then target.value.members else [], patch.members))
  }

  function MergeMembers(t: seq<Member>, patch: seq<Member>): seq<Member>
    decreases patch, 1
  {
    if patch == [] then t
    else if patch[0].value.Null? then MergeMembers(Removed(t, patch[0].key), patch[1..])
    else
      var merged := MergePatch(Found(t, patch[0].key), patch[0].value);
      MergeMembers(Removed(t, patch[0].key) + [Member(patch[0].key, merged)], patch[1..])
  }

  /** The function of RFC 7396 section 2. */
  function Rfc7396(target: Option<Doc>, patch: Doc): Doc
    decreases patch
  {
    if !patch.Object? then patch
    else
      var base := if target.Some? && target.value.Object? then target.value.members else map[];
      var p := patch.members;
      Object(map f | f in base.Keys + p.Keys && !(f in p && p[f].doc == Leaf(Null)) ::
               if f in p then Entry(p[f].name, Rfc7396(if f in base then Some(base[f].doc) else None, p[f].doc))
               else base[f])
  }

  function MeaningOf(v: Option<Json>): Option<Doc> {
    if v.Some? then Some(Meaning(v.value)) else None
  }

  /** What merging makes of one name. */
  ghost predicate MergedAt(r: map<string, Entry>, t: map<string, Entry>, patch: seq<Member>, f: string) {
    var j := First(patch, f);
    if j < |patch| then
      && (f in r <==> !patch[j].value.Null?)
      && (f in r ==>
            r[f] == Entry(patch[j].key, Rfc7396(if f in t then Some(t[f].doc) else None, Meaning(patch[j].value))))
    else (f in r <==> f in t) && (f in r ==> r[f] == t[f])
  }

  lemma NullMeans(v: Json)
    ensures Meaning(v) == Leaf(Null) <==> v.Null?
  {
  }

  lemma FoundMeans(t: seq<Member>, k: string)
    requires DistinctNames(t)
    ensures MeaningOf(Found(t, k)) ==
      if Fold(k) in MeaningMembers(t) then Some(MeaningMembers(t)[Fold(k)].doc) else None
  {
    hide Fold, MeaningMembers, Meaning;
    FirstIs(t, Fold(k));
  }

  lemma RemovedMeans(t: seq<Member>, k: string)
    requires WellNamed(Obj(t))
    ensures WellNamed(Obj(Removed(t, k))) && MeaningMembers(Removed(t, k)) == MeaningMembers(t) - {Fold(k)}
  {
    hide Fold, MeaningMembers;
    FirstIs(t, Fold(k));
    var j := First(t, Fold(k));
    if j < |t| {
      WithoutMember(t, j);
      WellNamedMembers(t, j);
    }
  }

  lemma AppendedMeans(t: seq<Member>, k: string, w: Json)
    requires WellNamed(Obj(t)) && WellNamed(w) && NulFree(k)
    ensures var s := Removed(t, k) + [Member(k, w)];
      WellNamed(Obj(s)) && MeaningMembers(s) == MeaningMembers(t)[Fold(k) := Entry(k, Meaning(w))]
  {
    hide Fold, MeaningMembers, Removed, Meaning, WellNamed;
    RemovedMeans(t, k);
    WellNamedWith(Removed(t, k), k, w);
    NamesOf(Removed(t, k));
    WithMember(Removed(t, k), k, w);
  }

  lemma NamesOf(t: seq<Member>)
    requires WellNamed(Obj(t))
    ensures DistinctNames(t)
  {
  }

  lemma WellNamedTail(patch: seq<Member>)
    requires WellNamed(Obj(patch)) && patch != []
    ensures WellNamed(patch[0].value) && NulFree(patch[0].key) && WellNamed(Obj(patch[1..]))
    ensures First(patch[1..], Fold(patch[0].key)) == |patch| - 1
  {
    hide Fold;
    assert forall i :: 0 <= i < |patch[1..]| ==> patch[1..][i] == patch[i + 1];
  }

  /** Merging computes RFC 7396 section 2, on documents whose sibling names differ ignoring case. */
  lemma {:induction false} MergeIsRfc(target: Option<Json>, patch: Json)
    requires (target.Some? ==> WellNamed(target.value)) && WellNamed(patch)
    ensures WellNamed(MergePatch(target, patch))
    ensures Meaning(MergePatch(target, patch)) == Rfc7396(MeaningOf(target), Meaning(patch))
    decreases patch, 0
  {
    hide MergeMembers, WellNamed, Fold, MeaningMembers, Rfc7396;
    if patch.Obj? {
      var t := if target.Some? && target.value.Obj? then target.value.members else [];
      EmptyWellNamed();
      var r := MergeMembers(t, patch.members);
      NamesOf(patch.members);
      MergeMembersMeans(t, patch.members, "");
      forall f ensures MergedAt(MeaningMembers(r), MeaningMembers(t), patch.members, f) {
        MergeMembersMeans(t, patch.members, f);
      }
      RfcIs(MeaningMembers(r), t, patch.members, MeaningOf(target));
    } else {
      RfcLeaf(MeaningOf(target), Meaning(patch));
    }
  }

  lemma EmptyWellNamed()
    ensures WellNamed(Obj([])) && MeaningMembers([]) == map[]
  {
  }

  lemma RfcLeaf(target: Option<Doc>, patch: Doc)
    requires !patch.Object?
    ensures Rfc7396(target, patch) == patch
  {
  }

  lemma RfcIs(r: map<string, Entry>, t: seq<Member>, patch: seq<Member>, target: Option<Doc>)
    requires DistinctNames(patch) && forall f :: MergedAt(r, MeaningMembers(t), patch, f)
    requires MeaningMembers(t) == if target.Some? && target.value.Object? then target.value.members else map[]
    ensures Object(r) == Rfc7396(target, Object(MeaningMembers(patch)))
  {
    hide Fold, MeaningMembers, Meaning;
    var base, p := MeaningMembers(t), MeaningMembers(patch);
    var w := Rfc7396(target, Object(p)).members;
    forall f ensures f in r <==> f in w {
      FirstIs(patch, f);
      assert MergedAt(r, base, patch, f);
      if f in p {
        NullMeans(patch[First(patch, f)].value);
      }
    }
    forall f | f in r ensures r[f] == w[f] {
      FirstIs(patch, f);
      assert MergedAt(r, base, patch, f);
    }
    assert r == w;
  }

  /** The loop over the members of the patch. */
  lemma {:induction false} MergeMembersMeans(t: seq<Member>, patch: seq<Member>, f: string)
    requires WellNamed(Obj(t)) && WellNamed(Obj(patch))
    ensures WellNamed(Obj(MergeMembers(t, patch)))
    ensures MergedAt(MeaningMembers(MergeMembers(t, patch)), MeaningMembers(t), patch, f)
    decreases patch, 1
  {
    hide WellNamed, Fold, MeaningMembers, MergePatch, Rfc7396, Meaning, Removed, Found, First;
    if patch == [] {
      FirstOfNone(f);
    } else {
      var p := patch[0];
      WellNamedTail(patch);
      FirstTail(patch, f);
      NamesOf(t);
      if p.value.Null? {
        RemovedMeans(t, p.key);
        MergeMembersMeans(Removed(t, p.key), patch[1..], f);
      } else {
        var replaceme := Found(t, p.key);
        FoundWellNamed(t, p.key);
        FoundMeans(t, p.key);
        MergeIsRfc(replaceme, p.value);
        var merged := MergePatch(replaceme, p.value);
        AppendedMeans(t, p.key, merged);
        MergeMembersMeans(Removed(t, p.key) + [Member(p.key, merged)], patch[1..], f);
      }
    }
  }

  lemma FoundWellNamed(t: seq<Member>, k: string)
    requires WellNamed(Obj(t))
    ensures Found(t, k).Some? ==> WellNamed(Found(t, k).value)
  {
    hide Fold;
  }

  // ---------------------------------------------------------------- names from a set

  /** Every name in it is one of these. */
  ghost predicate NamesIn(v: Json, names: iset<string>)
    decreases v
  {
    match v
    case Arr(items) => forall i :: 0 <= i < |items| ==> NamesIn(items[i], names)
    case Obj(members) => forall i :: 0 <= i < |members| ==> members[i].key in names && NamesIn(members[i].value, names)
    case _ => true
  }

  ghost predicate NamedIn(v: Json, names: iset<string>) {
    WellNamed(v) && NamesIn(v, names)
  }

  ghost predicate MembersNamedIn(s: seq<Member>, names: iset<string>) {
    forall i :: 0 <= i < |s| ==> s[i].key in names && NamedIn(s[i].value, names)
  }

  /** The names of a document are spelled like names of the set. */
  ghost predicate DocNamedIn(d: Doc, names: iset<string>)
    decreases d
  {
    match d
    case Leaf(_) => true
    case List(items) => forall i :: 0 <= i < |items| ==> DocNamedIn(items[i], names)
    case Object(m) => forall k :: k in m ==> m[k].name in names && Fold(m[k].name) == k && DocNamedIn(m[k].doc, names)
  }

  /** No two names of the set differ in letter case only. */
  ghost predicate OneSpelling(names: iset<string>) {
    forall a, b :: a in names && b in names && Fold(a) == Fold(b) ==> a == b
  }

  lemma NamedInParts(v: Json, names: iset<string>)
    requires NamedIn(v, names)
    ensures WellNamed(v)
    ensures v.Arr? ==> forall i :: 0 <= i < |v.items| ==> NamedIn(v.items[i], names)
    ensures v.Obj? ==> MembersNamedIn(v.members, names) && DistinctNames(v.members)
  {
    hide Fold;
  }

  lemma SortedNamedIn(s: seq<Member>, names: iset<string>)
    requires MembersNamedIn(s, names) && DistinctNames(s)
    ensures MembersNamedIn(Sorted(s), names)
  {
    hide Fold, Sorted, NamedIn;
    SortedStrict(s);
    var t := Sorted(s);
    forall i | 0 <= i < |t| ensures t[i].key in names && NamedIn(t[i].value, names) {
      assert t[i] in multiset(s);
    }
  }

  lemma {:induction false} MeaningNamedIn(v: Json, names: iset<string>)
    requires NamedIn(v, names)
    ensures DocNamedIn(Meaning(v), names)
    decreases v
  {
    hide Fold, MeaningMembers, NamedIn;
    NamedInParts(v, names);
    match v
    case Arr(items) =>
      forall i | 0 <= i < |items| ensures DocNamedIn(Meaning(items[i]), names) {
        MeaningNamedIn(items[i], names);
      }
    case Obj(members) =>
      MapOf(members);
      var m := MeaningMembers(members);
      forall k | k in m ensures m[k].name in names && Fold(m[k].name) == k && DocNamedIn(m[k].doc, names) {
        var i := NameOf(members, k);
        MeaningNamedIn(members[i].value, names);
      }
    case _ =>
  }

  /** With one spelling for each name, ignoring letter case ignores nothing. */
  lemma {:induction false} CaselessExactly(d: Doc, e: Doc, names: iset<string>)
    requires OneSpelling(names) && DocNamedIn(d, names) && DocNamedIn(e, names)
    ensures Caseless(d) == Caseless(e) <==> d == e
    decreases d
  {
    hide Fold;
    if d.List? && e.List? && Caseless(d) == Caseless(e) {
      assert |Caseless(d).items| == |d.items| && |Caseless(e).items| == |e.items|;
      forall i | 0 <= i < |d.items| ensures d.items[i] == e.items[i] {
        assert Caseless(d).items[i] == Caseless(e).items[i];
        CaselessExactly(d.items[i], e.items[i], names);
      }
      assert d.items == e.items;
    } else if d.Object? && e.Object? && Caseless(d) == Caseless(e) {
      forall k ensures k in d.members <==> k in e.members {
        assert k in Caseless(d).members <==> k in Caseless(e).members;
      }
      forall k | k in d.members ensures d.members[k] == e.members[k] {
        assert Caseless(d).members[k] == Caseless(e).members[k];
        CaselessExactly(d.members[k].doc, e.members[k].doc, names);
      }
      assert d.members == e.members;
    }
  }

  /** There comparing decides equality up to member order. */
  lemma CompareNamed(a: Json, b: Json, names: iset<string>)
    requires OneSpelling(names) && NamedIn(a, names) && NamedIn(b, names)
    ensures CompareValues(a, b) == 0 <==> Meaning(a) == Meaning(b)
  {
    hide CompareValues, Meaning, Caseless, DocNamedIn, OneSpelling, NamesIn;
    CompareMeans(a, b);
    MeaningNamedIn(a, names);
    MeaningNamedIn(b, names);
    CaselessExactly(Meaning(a), Meaning(b), names);
  }
}
