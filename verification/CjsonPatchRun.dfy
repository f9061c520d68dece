/** Applying generated patches: what each one does, and what all of them together do. */
module CjsonPatchRun {
  import opened Wrappers
  import opened CjsonKeys
  import opened CjsonString
  import opened CjsonText
  import opened CjsonDoc
  import opened CjsonPointer
  import opened CjsonPointerText
  import opened CjsonCompare
  import opened CjsonPatch
  import opened CjsonDiff

  // ---------------------------------------------------------------- tokens that spell names exactly

  /** The tokens resolve, and spell the names as the document does. */
  ghost predicate Spelled(d: Doc, ts: seq<Token>)
    decreases |ts|
  {
    ts == [] ||
    match ts[0]
    case Index(n) => d.List? && n < |d.items| && Spelled(d.items[n], ts[1..])
    case Name(k) =>
      && NulFree(k) && d.Object? && Fold(k) in d.members && d.members[Fold(k)].name == k
      && Spelled(d.members[Fold(k)].doc, ts[1..])
  }

  lemma {:induction false} SpelledResolves(d: Doc, ts: seq<Token>)
    requires Spelled(d, ts)
    ensures Resolve(d, ts).Some?
    decreases |ts|
  {
    hide Fold;
    if ts != [] {
      match ts[0]
      case Index(n) => SpelledResolves(d.items[n], ts[1..]);
      case Name(k) => SpelledResolves(d.members[Fold(k)].doc, ts[1..]);
    }
  }

  lemma {:induction false} SpelledReplace(d: Doc, ts: seq<Token>, x: Doc)
    requires Spelled(d, ts)
    ensures Spelled(Replace(d, ts, x), ts)
    decreases |ts|
  {
    hide Fold;
    if ts != [] {
      match ts[0]
      case Index(n) => SpelledReplace(d.items[n], ts[1..], x);
      case Name(k) => SpelledReplace(d.members[Fold(k)].doc, ts[1..], x);
    }
  }

  lemma {:induction false} SpelledMore(d: Doc, ts: seq<Token>, t: Token)
    ensures Spelled(d, ts + [t]) <==> Spelled(d, ts) && Resolve(d, ts).Some? && Spelled(Resolve(d, ts).value, [t])
    decreases |ts|
  {
    hide Fold;
    if ts == [] {
      assert ts + [t] == [t];
    } else {
      assert (ts + [t])[1..] == ts[1..] + [t];
      match ts[0]
      case Index(n) =>
        if d.List? && n < |d.items| { SpelledMore(d.items[n], ts[1..], t); }
      case Name(k) =>
        if d.Object? && Fold(k) in d.members { SpelledMore(d.members[Fold(k)].doc, ts[1..], t); }
    }
  }

  // ---------------------------------------------------------------- sequences of patches

  ghost predicate Becomes(o: Outcome, d: Doc) {
    o.Return? && o.code == 0 && WellNamed(o.doc) && Meaning(o.doc) == d
  }

  lemma {:induction false} ApplyConcat(doc: Json, ps: seq<Json>, qs: seq<Json>)
    requires ApplyPatches(doc, ps).Return? && ApplyPatches(doc, ps).code == 0
    ensures ApplyPatches(doc, ps + qs) == ApplyPatches(ApplyPatches(doc, ps).doc, qs)
    decreases |ps|
  {
    hide ApplyPatch;
    if ps == [] {
      assert ps + qs == qs;
    } else {
      assert (ps + qs)[1..] == ps[1..] + qs;
      ApplyConcat(ApplyPatch(doc, ps[0]).doc, ps[1..], qs);
    }
  }

  lemma ApplyNone(doc: Json, d: Doc)
    requires WellNamed(doc) && Meaning(doc) == d
    ensures Becomes(ApplyPatches(doc, []), d)
  {
  }

  lemma ApplyOne(doc: Json, p: Json)
    ensures ApplyPatches(doc, [p]) == ApplyPatch(doc, p)
  {
    hide ApplyPatch;
    assert [p][1..] == [];
  }

  /** A change of the part that the tokens lead to, seen from the new document. */
  lemma Local(doc: Json, mid: Json, ts: seq<Token>, y: Doc, z: Doc)
    requires Spelled(Meaning(doc), ts) && Meaning(mid) == Replace(Meaning(doc), ts, y)
    ensures Spelled(Meaning(mid), ts) && Resolve(Meaning(mid), ts) == Some(y)
    ensures Replace(Meaning(mid), ts, z) == Replace(Meaning(doc), ts, z)
  {
    hide Spelled, Resolve, Replace, Meaning;
    SpelledResolves(Meaning(doc), ts);
    SpelledReplace(Meaning(doc), ts, y);
    ResolveReplace(Meaning(doc), ts, y);
    ReplaceTwice(Meaning(doc), ts, y, z);
  }

  /** Patches one after the other. */
  lemma Sequence(doc: Json, ps: seq<Json>, qs: seq<Json>, d: Doc, e: Doc)
    requires Becomes(ApplyPatches(doc, ps), d)
    requires Becomes(ApplyPatches(ApplyPatches(doc, ps).doc, qs), e)
    ensures Becomes(ApplyPatches(doc, ps + qs), e)
  {
    hide ApplyPatches;
    ApplyConcat(doc, ps, qs);
  }

  // ---------------------------------------------------------------- tokens as they are written

  function Key(t: Token): string {
    if t.Name? then t.name else Digits(t.n)
  }

  function Keys(ts: seq<Token>): (ks: seq<string>)
    ensures |ks| == |ts| && forall i :: 0 <= i < |ts| ==> ks[i] == Key(ts[i])
  {
    seq(|ts|, i requires 0 <= i < |ts| => Key(ts[i]))
  }

  /** A printed index is read back, by either rule. */
  lemma {:induction false} DigitsValue(n: nat)
    ensures AllDigits(Digits(n)) && Value(Digits(n)) == n
    ensures LooseIndex(Digits(n)) == Some(n) && (n > 0 ==> Digits(n)[0] != '0')
    decreases n
  {
    var s := Digits(n);
    assert s[|s| - 1] == '0' + (n % 10) as char;
    if n < 10 {
      assert s[..|s| - 1] == [];
    } else {
      DigitsValue(n / 10);
      assert s[..|s| - 1] == Digits(n / 10);
    }
  }

  lemma {:induction false} KeysText(ts: seq<Token>)
    ensures PathText(Keys(ts)) == PointerText(ts)
    decreases |ts|
  {
    hide Digits, Escaped;
    if ts != [] {
      KeysText(ts[1..]);
      assert Keys(ts)[1..] == Keys(ts[1..]);
      PathParts(Keys(ts));
      if ts[0].Index? {
        EscapedPlain(Digits(ts[0].n));
      }
    }
  }

  lemma {:induction false} LocateKeys(d: Doc, ts: seq<Token>)
    requires Resolve(d, ts).Some?
    ensures Locate(d, Keys(ts), false) == Some(ts)
    decreases |ts|
  {
    hide Digits, Fold, LooseIndex;
    if ts != [] {
      assert Keys(ts)[1..] == Keys(ts[1..]) && ts == [ts[0]] + ts[1..];
      ResolveOne(d, ts[0]);
      if ts[0].Index? {
        DigitsValue(ts[0].n);
      }
      LocateKeys(Resolve(d, [ts[0]]).value, ts[1..]);
    }
  }

  // ---------------------------------------------------------------- what a generated patch asks for

  function DropChild(d: Doc, t: Token): Doc {
    match t
    case Index(n) => if d.List? && n < |d.items| then List(Without(d.items, n)) else d
    case Name(k) => if d.Object? then Object(d.members - {Fold(k)}) else d
  }

  /** An element goes in front of the index or, with "-", to the end; a member replaces its namesake. */
  function AddChild(d: Doc, t: Token, x: Doc): Doc {
    match t
    case Index(n) => if d.List? then List(InsertAt(d.items, n, x)) else d
    case Name(k) =>
      if d.Object? then Object(d.members[Fold(k) := Entry(k, x)])
      else if d.List? && k == "-" then List(d.items + [x])
      else d
  }

  /** The token names a place in an array or object. */
  predicate Place(d: Doc, t: Token) {
    match t
    case Index(_) => d.List?
    case Name(k) => (d.Object? && NulFree(k)) || (d.List? && k == "-")
  }

  /** The written path, cut into the tokens of the parent and the last one. */
  lemma PathKeys(d: Doc, ts: seq<Token>, t: Token)
    requires Resolve(d, ts).Some?
    ensures var ks := Keys(ts + [t]);
      ks != [] && PathText(ks) == PointerText(ts + [t]) && Parent(d, ks) == Some(ts) && Last(ks) == Key(t)
  {
    hide PointerText, Locate, Resolve;
    KeysText(ts + [t]);
    LocateKeys(d, ts);
    assert Keys(ts + [t])[..|ts|] == Keys(ts);
  }

  lemma DetachMeans(doc: Json, ts: seq<Token>, t: Token)
    requires WellNamed(doc) && Resolve(Meaning(doc), ts).Some? && Place(Resolve(Meaning(doc), ts).value, t)
    requires t != Name("-") || Resolve(Meaning(doc), ts).value.Object?
    ensures var d := Resolve(Meaning(doc), ts).value;
      var r := Detach(doc, PointerText(ts + [t]));
      && r.Some? && WellNamed(r.value.0) && Meaning(r.value.0) == Replace(Meaning(doc), ts, DropChild(d, t))
  {
    hide PathText, Resolve, Replace, Fold, Detach, Atoi, Locate, WellNamed, Meaning, Keys, Parent, Last;
    var d := Resolve(Meaning(doc), ts).value;
    PathKeys(Meaning(doc), ts, t);
    PathSplits(Meaning(doc), Keys(ts + [t]));
    DetachTakes(doc, PathText(Keys(ts + [t])));
    ReplaceSelf(Meaning(doc), ts);
    if t.Index? {
      AtoiDigits(t.n);
    } else {
      assert Fold(t.name) !in d.members ==> d.members - {Fold(t.name)} == d.members;
    }
  }

  lemma AddMeans(doc: Json, ts: seq<Token>, t: Token, value: Json)
    requires WellNamed(doc) && Resolve(Meaning(doc), ts).Some? && Place(Resolve(Meaning(doc), ts).value, t)
    requires WellNamed(value)
    ensures var d := Resolve(Meaning(doc), ts).value;
      var r := Add(doc, PointerText(ts + [t]), value);
      && r.Return? && r.code == 0 && WellNamed(r.doc)
      && Meaning(r.doc) == Replace(Meaning(doc), ts, AddChild(d, t, Meaning(value)))
  {
    hide PathText, Resolve, Replace, Fold, Add, Atoi, Locate, WellNamed, Meaning, Keys, Parent, Last, NulFree;
    PathKeys(Meaning(doc), ts, t);
    KeyPlain(t);
    PathSplits(Meaning(doc), Keys(ts + [t]));
    AddPuts(doc, PathText(Keys(ts + [t])), value);
    if t.Index? {
      AtoiDigits(t.n);
    }
  }

  lemma KeyPlain(t: Token)
    ensures t.Index? || t == Name("-") ==> NulFree(Key(t))
  {
  }

  // ---------------------------------------------------------------- single patches

  lemma PatchFields(op: string, path: string, value: Option<Json>)
    ensures var p := PatchJson(op, path, value);
      Lookup(p, "op") == Some(Str(op)) && Lookup(p, "path") == Some(Str(path)) && Lookup(p, "value") == value
  {
    hide Fold;
    FoldLengths();
    var p := PatchJson(op, path, value);
    assert p.members[0].key == "op" && p.members[1].key == "path";
    assert value.Some? ==> p.members[2] == Member("value", value.value);
    assert First(p.members, Fold("op")) == 0;
    assert First(p.members, Fold("path")) == 1;
    var j := First(p.members, Fold("value"));
    assert value.Some? ==> j == 2;
  }

  lemma FoldLengths()
    ensures Fold("op") != Fold("path") && Fold("op") != Fold("value") && Fold("path") != Fold("value")
  {
  }

  lemma RemoveOne(doc: Json, ts: seq<Token>, t: Token)
    requires WellNamed(doc) && Resolve(Meaning(doc), ts).Some? && Place(Resolve(Meaning(doc), ts).value, t)
    requires t != Name("-") || Resolve(Meaning(doc), ts).value.Object?
    ensures var p := PatchJson("remove", PointerText(ts) + ['/'] + TokenText(t), None);
      Becomes(ApplyPatches(doc, [p]), Replace(Meaning(doc), ts, DropChild(Resolve(Meaning(doc), ts).value, t)))
  {
    hide Detach, PointerText, TokenText, Resolve, Replace, Meaning, DropChild, WellNamed, Place, Lookup, PatchJson;
    var path := PointerText(ts) + ['/'] + TokenText(t);
    PatchFields("remove", path, None);
    PointerAppend(ts, t);
    DetachMeans(doc, ts, t);
    ApplyOne(doc, PatchJson("remove", path, None));
  }

  lemma AddOne(doc: Json, ts: seq<Token>, t: Token, value: Json)
    requires WellNamed(doc) && Resolve(Meaning(doc), ts).Some? && Place(Resolve(Meaning(doc), ts).value, t)
    requires WellNamed(value)
    ensures var p := PatchJson("add", PointerText(ts) + ['/'] + TokenText(t), Some(value));
      Becomes(ApplyPatches(doc, [p]),
              Replace(Meaning(doc), ts, AddChild(Resolve(Meaning(doc), ts).value, t, Meaning(value))))
  {
    hide Add, PointerText, TokenText, Resolve, Replace, Meaning, AddChild, WellNamed, Place, Lookup, PatchJson;
    var path := PointerText(ts) + ['/'] + TokenText(t);
    PatchFields("add", path, Some(value));
    PointerAppend(ts, t);
    AddMeans(doc, ts, t, value);
    ApplyOne(doc, PatchJson("add", path, Some(value)));
  }

  lemma DropThenAdd(d: Doc, t: Token, x: Doc)
    requires Spelled(d, [t])
    ensures Place(d, t) && Place(DropChild(d, t), t)
    ensures AddChild(DropChild(d, t), t, x) == Replace(d, [t], x)
    ensures t == Name("-") ==> d.Object?
  {
    hide Fold;
    assert [t][1..] == [];
    match t
    case Index(n) =>
      assert InsertAt(Without(d.items, n), n, x) == d.items[n := x];
    case Name(k) =>
      assert (d.members - {Fold(k)})[Fold(k) := Entry(k, x)] == d.members[Fold(k) := Entry(k, x)];
  }

  /** A replace is a remove and an add at the same place. */
  lemma ReplaceOne(doc: Json, ts: seq<Token>, t: Token, value: Json)
    requires WellNamed(doc) && WellNamed(value) && Spelled(Meaning(doc), ts + [t])
    ensures var p := PatchJson("replace", PointerText(ts + [t]), Some(value));
      Becomes(ApplyPatches(doc, [p]), Replace(Meaning(doc), ts + [t], Meaning(value)))
  {
    hide Add, Detach, PointerText, Resolve, Replace, Meaning, AddChild, DropChild, WellNamed, Place, Lookup,
      PatchJson, Spelled;
    var path := PointerText(ts + [t]);
    SpelledMore(Meaning(doc), ts, t);
    var d := Resolve(Meaning(doc), ts).value;
    PatchFields("replace", path, Some(value));
    DropThenAdd(d, t, Meaning(value));
    DetachMeans(doc, ts, t);
    var rest := Detach(doc, path).value.0;
    Local(doc, rest, ts, DropChild(d, t), Replace(d, [t], Meaning(value)));
    AddMeans(rest, ts, t, value);
    ReplaceBelow(Meaning(doc), ts, t, Meaning(value));
    ApplyOne(doc, PatchJson("replace", path, Some(value)));
  }

  // ---------------------------------------------------------------- arrays

  /** Removing the indices j up to n one after the other. */
  function RemoveAll<T>(s: seq<T>, j: nat, n: nat): seq<T>
    decreases n - j
  {
    if j >= n then s else RemoveAll(if j < |s| then Without(s, j) else s, j + 1, n)
  }

  lemma {:induction false} RemoveBeyond<T>(s: seq<T>, j: nat, n: nat)
    requires |s| <= j
    ensures RemoveAll(s, j, n) == s
    decreases n - j
  {
    if j < n {
      RemoveBeyond(s, j + 1, n);
    }
  }

  lemma RemoveStep<T>(s: seq<T>, j: nat, n: nat)
    requires j < n && j < |s|
    ensures RemoveAll(s, j, n) == RemoveAll(Without(s, j), j + 1, n)
  {
  }

  lemma EveryOtherSteps<T>(s: seq<T>)
    ensures |s| < 2 ==> EveryOther(s) == []
    ensures |s| >= 2 ==> EveryOther(s) == [s[1]] + EveryOther(s[2..])
  {
  }

  lemma WithoutFirst<T>(kept: seq<T>, rest: seq<T>)
    requires rest != []
    ensures Without(kept + rest, |kept|) == kept + rest[1..]
    ensures |rest| == 1 ==> kept + rest[1..] == kept
    ensures |rest| > 1 ==> kept + rest[1..] == (kept + [rest[1]]) + rest[2..]
  {
    assert |rest| > 1 ==> rest[1..] == [rest[1]] + rest[2..];
  }

  /** Since every removal moves the rest down, every other element is missed. */
  lemma {:induction false} RemoveMisses<T>(kept: seq<T>, rest: seq<T>, n: nat)
    requires |kept| + (|rest| + 1) / 2 <= n
    ensures RemoveAll(kept + rest, |kept|, n) == kept + EveryOther(rest)
    decreases |rest|
  {
    hide RemoveAll, EveryOther, Without;
    var j := |kept|;
    EveryOtherSteps(rest);
    if rest == [] {
      assert kept + rest == kept;
      RemoveBeyond(kept, j, n);
    } else {
      RemoveStep(kept + rest, j, n);
      WithoutFirst(kept, rest);
      if |rest| == 1 {
        RemoveBeyond(kept, j + 1, n);
      } else {
        RemoveMisses(kept + [rest[1]], rest[2..], n);
        assert kept + [rest[1]] + EveryOther(rest[2..]) == kept + ([rest[1]] + EveryOther(rest[2..]));
      }
    }
  }

  lemma {:induction false} ApplyRemoves(doc: Json, ts: seq<Token>, cur: seq<Doc>, c: nat, n: nat)
    requires WellNamed(doc) && Spelled(Meaning(doc), ts) && Resolve(Meaning(doc), ts) == Some(List(cur))
    ensures Becomes(ApplyPatches(doc, GenRemoves(PointerText(ts), c, n)),
                    Replace(Meaning(doc), ts, List(RemoveAll(cur, c, n))))
    decreases n - c
  {
    hide ApplyPatches, PointerText, Resolve, Replace, Meaning, WellNamed, Spelled, PatchJson, Digits, Escaped;
    if c >= n {
      ReplaceSelf(Meaning(doc), ts);
      ApplyNone(doc, Meaning(doc));
    } else {
      var t := Index(c);
      var next := if c < |cur| then Without(cur, c) else cur;
      EscapedPlain(Digits(c));
      RemoveOne(doc, ts, t);
      var p := PatchJson("remove", PointerText(ts) + ['/'] + Digits(c), None);
      var mid := ApplyPatches(doc, [p]).doc;
      Local(doc, mid, ts, List(next), List(RemoveAll(cur, c, n)));
      ApplyRemoves(mid, ts, next, c + 1, n);
      Sequence(doc, [p], GenRemoves(PointerText(ts), c + 1, n), Meaning(mid),
               Replace(Meaning(doc), ts, List(RemoveAll(cur, c, n))));
    }
  }

  lemma EscapedDash()
    ensures Escaped("-") == "-" && TokenText(Name("-")) == "-"
  {
  }

  lemma {:induction false} ApplyAdds(doc: Json, ts: seq<Token>, cur: seq<Doc>, b: seq<Json>, c: nat)
    requires WellNamed(doc) && Spelled(Meaning(doc), ts) && Resolve(Meaning(doc), ts) == Some(List(cur))
    requires forall i :: 0 <= i < |b| ==> WellNamed(b[i])
    ensures Becomes(ApplyPatches(doc, GenAdds(PointerText(ts), b, c)),
                    Replace(Meaning(doc), ts, List(cur + if c < |b| then Docs(b[c..]) else [])))
    decreases |b| - c
  {
    hide ApplyPatches, PointerText, Resolve, Replace, Meaning, WellNamed, Spelled, PatchJson, Escaped;
    if c >= |b| {
      assert cur + [] == cur;
      ReplaceSelf(Meaning(doc), ts);
      ApplyNone(doc, Meaning(doc));
    } else {
      var next, all := cur + [Meaning(b[c])], cur + Docs(b[c..]);
      assert next + (if c + 1 < |b| then Docs(b[c + 1..]) else []) == all;
      EscapedDash();
      AddOne(doc, ts, Name("-"), b[c]);
      var p := PatchJson("add", PointerText(ts) + ['/'] + "-", Some(b[c]));
      var mid := ApplyPatches(doc, [p]).doc;
      Local(doc, mid, ts, List(next), List(all));
      ApplyAdds(mid, ts, next, b, c + 1);
      Sequence(doc, [p], GenAdds(PointerText(ts), b, c + 1), Meaning(mid), Replace(Meaning(doc), ts, List(all)));
    }
  }

  // ---------------------------------------------------------------- what the walk over the members leaves

  /** What the walk makes of the members `cur`. */
  function Target(cur: map<string, Entry>, a: seq<Member>, b: seq<Member>): map<string, Entry>
    decreases |a| + |b|
  {
    if a == [] && b == [] then cur
    else if Diff(a, b) == 0 then
      Target(cur[Fold(a[0].key) := Entry(a[0].key, Patched(a[0].value, b[0].value))], a[1..], b[1..])
    else if Diff(a, b) < 0 then Target(cur - {Fold(a[0].key)}, a[1..], b)
    else Target(cur[Fold(b[0].key) := Entry(b[0].key, Meaning(b[0].value))], a, b[1..])
  }

  /** What it makes of one name. */
  ghost predicate Settled(t: map<string, Entry>, cur: map<string, Entry>, a: seq<Member>, b: seq<Member>, f: string) {
    var i, j := First(a, f), First(b, f);
    if j < |b| then
      && f in t
      && t[f] == if i < |a| then Entry(a[i].key, Patched(a[i].value, b[j].value))
                 else Entry(b[j].key, Meaning(b[j].value))
    else if i < |a| then f !in t
    else (f in t <==> f in cur) && (f in t ==> t[f] == cur[f])
  }

  lemma {:induction false} TargetSettles(cur: map<string, Entry>, a: seq<Member>, b: seq<Member>, f: string)
    requires Strict(a) && Strict(b)
    ensures Settled(Target(cur, a, b), cur, a, b, f)
    decreases |a| + |b|
  {
    hide Fold, First, Patched, Meaning, Diff, Strict;
    if a == [] && b == [] {
      FirstOfNone(f);
    } else {
      DiffMeans(a, b);
      if a != [] { FirstTail(a, f); StrictTail(a); }
      if b != [] { FirstTail(b, f); StrictTail(b); }
      if Diff(a, b) == 0 {
        var e := Entry(a[0].key, Patched(a[0].value, b[0].value));
        TargetSettles(cur[Fold(a[0].key) := e], a[1..], b[1..], f);
      } else if Diff(a, b) < 0 {
        TargetSettles(cur - {Fold(a[0].key)}, a[1..], b, f);
      } else {
        TargetSettles(cur[Fold(b[0].key) := Entry(b[0].key, Meaning(b[0].value))], a, b[1..], f);
      }
    }
  }

  lemma FirstOfNone(f: string)
    ensures First([], f) == 0
  {
  }

  /** Sorting does not change which member a name leads to. */
  lemma FirstByMultiset(s: seq<Member>, t: seq<Member>, f: string)
    requires DistinctNames(s) && DistinctNames(t) && multiset(s) == multiset(t)
    ensures First(s, f) < |s| <==> First(t, f) < |t|
    ensures First(s, f) < |s| ==> s[First(s, f)] == t[First(t, f)]
  {
    hide Fold;
    var i, j := First(s, f), First(t, f);
    if i < |s| {
      assert s[i] in multiset(t);
      var k :| 0 <= k < |t| && t[k] == s[i];
    }
    if j < |t| {
      assert t[j] in multiset(s);
      var k :| 0 <= k < |s| && s[k] == t[j];
    }
  }

  /** The walk over the sorted members of both objects makes the first what Patched says. */
  lemma TargetIsPatched(a: seq<Member>, b: seq<Member>)
    requires DistinctNames(a) && DistinctNames(b)
    ensures Object(Target(MeaningMembers(a), Sorted(a), Sorted(b))) == Patched(Obj(a), Obj(b))
  {
    hide Fold, First, Patched, Meaning, MeaningMembers, Target, Sorted;
    SortedStrict(a);
    SortedStrict(b);
    var cur, p := MeaningMembers(a), Patched(Obj(a), Obj(b)).members;
    var t := Target(cur, Sorted(a), Sorted(b));
    forall f ensures f in t <==> f in p {
      TargetSettles(cur, Sorted(a), Sorted(b), f);
      FirstByMultiset(a, Sorted(a), f);
      FirstByMultiset(b, Sorted(b), f);
      FirstIs(a, f);
      FirstIs(b, f);
    }
    forall f | f in p ensures t[f] == p[f] {
      TargetSettles(cur, Sorted(a), Sorted(b), f);
      FirstByMultiset(a, Sorted(a), f);
      FirstByMultiset(b, Sorted(b), f);
      FirstIs(b, f);
      PatchedMember(a, b, First(b, f));
      FirstFolds(b, f);
    }
    assert t == p;
  }

  lemma FirstFolds(s: seq<Member>, f: string)
    ensures First(s, f) < |s| ==> Fold(s[First(s, f)].key) == f
  {
  }

  // ---------------------------------------------------------------- whole documents

  /** The current elements after the pairs from c on have been patched. */
  function PairsDone(cur: seq<Doc>, a: seq<Json>, b: seq<Json>, c: nat): seq<Doc>
    requires |cur| == |a|
    decreases |a| - c
  {
    if c >= |a| || c >= |b| then cur else PairsDone(cur[c := Patched(a[c], b[c])], a, b, c + 1)
  }

  lemma {:induction false} PairsAre(cur: seq<Doc>, a: seq<Json>, b: seq<Json>, c: nat)
    requires |cur| == |a|
    ensures var r := PairsDone(cur, a, b, c);
      |r| == |a| && forall i :: 0 <= i < |a| ==> r[i] == if c <= i < |b| then Patched(a[i], b[i]) else cur[i]
    decreases |a| - c
  {
    hide Patched;
    if c < |a| && c < |b| {
      PairsAre(cur[c := Patched(a[c], b[c])], a, b, c + 1);
    }
  }

  ghost predicate Ready(doc: Json, ts: seq<Token>, from: Json) {
    WellNamed(doc) && WellNamed(from) && Spelled(Meaning(doc), ts) && Resolve(Meaning(doc), ts) == Some(Meaning(from))
  }

  /** At the root nothing may have to be replaced as a whole. */
  predicate RootKept(from: Json, to: Json) {
    && SameKind(from, to)
    && (from.Number? ==> from == to)
    && (from.Str? ==> from == to)
  }

  lemma OneToken(d: Doc, t: Token, y: Doc)
    ensures t.Index? && d.List? && t.n < |d.items| ==>
      Spelled(d, [t]) && Resolve(d, [t]) == Some(d.items[t.n]) && Replace(d, [t], y) == List(d.items[t.n := y])
    ensures
      (&& t.Name? && NulFree(t.name) && d.Object?
       && Fold(t.name) in d.members && d.members[Fold(t.name)].name == t.name) ==>
      && Spelled(d, [t]) && Resolve(d, [t]) == Some(d.members[Fold(t.name)].doc)
      && Replace(d, [t], y) == Object(d.members[Fold(t.name) := Entry(t.name, y)])
  {
    hide Fold;
    assert [t][1..] == [];
  }

  /** One level down. */
  lemma Down(doc: Json, ts: seq<Token>, t: Token, d: Doc, x: Doc, y: Doc)
    requires Spelled(Meaning(doc), ts) && Resolve(Meaning(doc), ts) == Some(d)
    requires Spelled(d, [t]) && Resolve(d, [t]) == Some(x)
    ensures Spelled(Meaning(doc), ts + [t]) && Resolve(Meaning(doc), ts + [t]) == Some(x)
    ensures Replace(Meaning(doc), ts + [t], y) == Replace(Meaning(doc), ts, Replace(d, [t], y))
    ensures PointerText(ts + [t]) == PointerText(ts) + ['/'] + TokenText(t)
  {
    hide Spelled, Resolve, Replace, Meaning, PointerText, TokenText;
    SpelledMore(Meaning(doc), ts, t);
    ReplaceBelow(Meaning(doc), ts, t, y);
    PointerAppend(ts, t);
  }

  /** Applying the patches from one part of a document makes that part what Patched says. */
  lemma {:induction false} ApplyGen(doc: Json, ts: seq<Token>, from: Json, to: Json)
    requires Ready(doc, ts, from) && WellNamed(to) && (ts != [] || RootKept(from, to))
    ensures Becomes(ApplyPatches(doc, Gen(PointerText(ts), from, to)), Replace(Meaning(doc), ts, Patched(from, to)))
    decreases Height(from), 2
  {
    hide ApplyPatches, PointerText, Resolve, Replace, WellNamed, Spelled, PatchJson, Sorted, GenPairs,
      GenRemoves, GenAdds, GenMembers;
    ReplaceSelf(Meaning(doc), ts);
    if !SameKind(from, to) || ((from.Number? || from.Str?) && from != to) {
      var us, t := ts[..|ts| - 1], ts[|ts| - 1];
      assert us + [t] == ts;
      ReplaceOne(doc, us, t, to);
    } else {
      match from
      case Arr(a) => ApplyArray(doc, ts, a, to.items);
      case Obj(a) => ApplyObject(doc, ts, a, to.members);
      case _ => ApplyNone(doc, Meaning(doc));
    }
  }

  lemma WellNamedItems(s: seq<Json>)
    requires WellNamed(Arr(s))
    ensures forall i :: 0 <= i < |s| ==> WellNamed(s[i])
  {
  }

  lemma ApplyArray(doc: Json, ts: seq<Token>, a: seq<Json>, b: seq<Json>)
    requires Ready(doc, ts, Arr(a)) && WellNamed(Arr(b))
    ensures Becomes(ApplyPatches(doc, Gen(PointerText(ts), Arr(a), Arr(b))),
                    Replace(Meaning(doc), ts, Patched(Arr(a), Arr(b))))
    decreases Height(Arr(a)), 1
  {
    hide ApplyPatches, PointerText, Resolve, Replace, WellNamed, Spelled, PatchJson, GenPairs, GenRemoves, GenAdds;
    hide Patched, RemoveAll, Gen, Meaning;
    var h, path := Height(Arr(a)), PointerText(ts);
    ArrBelow(a);
    WellNamedItems(a);
    WellNamedItems(b);
    MeaningOfArr(a);
    var paired := PairsDone(Docs(a), a, b, 0);
    PairsAre(Docs(a), a, b, 0);
    ApplyPairs(doc, ts, Docs(a), a, b, 0, h);
    var pairs, removes, adds := GenPairs(path, a, b, 0, h), GenRemoves(path, |b|, |a|), GenAdds(path, b, |a|);
    var one := ApplyPatches(doc, pairs).doc;
    var fewer := RemoveAll(paired, |b|, |a|);
    Local(doc, one, ts, List(paired), List(fewer));
    ApplyRemoves(one, ts, paired, |b|, |a|);
    var two := ApplyPatches(one, removes).doc;
    var all := fewer + if |a| < |b| then Docs(b[|a|..]) else [];
    Local(one, two, ts, List(fewer), List(all));
    ApplyAdds(two, ts, fewer, b, |a|);
    Local(doc, one, ts, List(paired), List(all));
    Sequence(doc, pairs, removes, Meaning(one), Meaning(two));
    ApplyConcat(doc, pairs, removes);
    Sequence(doc, pairs + removes, adds, Meaning(two), Replace(Meaning(doc), ts, List(all)));
    ArrayDone(a, b);
    GenArray(path, a, b);
  }

  lemma GenArray(path: string, a: seq<Json>, b: seq<Json>)
    requires ItemsBelow(a, Height(Arr(a)))
    ensures Gen(path, Arr(a), Arr(b))
         == GenPairs(path, a, b, 0, Height(Arr(a))) + GenRemoves(path, |b|, |a|) + GenAdds(path, b, |a|)
  {
    hide GenPairs, GenRemoves, GenAdds;
  }

  function Kept(a: seq<Json>, b: seq<Json>): (k: seq<Doc>)
    ensures |k| == Least(|a|, |b|) && forall i :: 0 <= i < |k| ==> k[i] == Patched(a[i], b[i])
  {
    seq(Least(|a|, |b|), i requires 0 <= i < Least(|a|, |b|) => Patched(a[i], b[i]))
  }

  lemma PatchedList(a: seq<Json>, b: seq<Json>)
    ensures Patched(Arr(a), Arr(b)) ==
      List(Kept(a, b) + if |a| > |b| then EveryOther(Docs(a[|b|..])) else Docs(b[|a|..]))
  {
    hide Docs, EveryOther;
    var tail := if |a| > |b| then EveryOther(Docs(a[|b|..])) else Docs(b[|a|..]);
    assert Patched(Arr(a), Arr(b)).items == Kept(a, b) + tail;
  }

  lemma PairsLonger(a: seq<Json>, b: seq<Json>)
    ensures PairsDone(Docs(a), a, b, 0) == Kept(a, b) + if |a| > |b| then Docs(a[|b|..]) else []
  {
    hide PairsDone, Meaning, Patched;
    PairsAre(Docs(a), a, b, 0);
    if |a| > |b| {
      assert PairsDone(Docs(a), a, b, 0) == Kept(a, b) + Docs(a[|b|..]);
    } else {
      assert PairsDone(Docs(a), a, b, 0) == Kept(a, b) + [];
    }
  }

  lemma ArrayDone(a: seq<Json>, b: seq<Json>)
    ensures var fewer := RemoveAll(PairsDone(Docs(a), a, b, 0), |b|, |a|);
      Patched(Arr(a), Arr(b)) == List(fewer + if |a| < |b| then Docs(b[|a|..]) else [])
  {
    hide PairsDone, RemoveAll, Patched, Docs, EveryOther;
    var kept := Kept(a, b);
    PairsLonger(a, b);
    PatchedList(a, b);
    if |a| > |b| {
      RemoveMisses(kept, Docs(a[|b|..]), |a|);
      assert kept + EveryOther(Docs(a[|b|..])) + [] == kept + EveryOther(Docs(a[|b|..]));
    } else {
      assert kept + [] == kept;
      RemoveBeyond(kept, |b|, |a|);
      NoDocs(b[|a|..]);
    }
  }

  lemma NoDocs(s: seq<Json>)
    ensures s == [] ==> Docs(s) == []
  {
  }

  lemma {:induction false} ApplyPairs(doc: Json, ts: seq<Token>, cur: seq<Doc>, a: seq<Json>, b: seq<Json>,
    c: nat, h: nat)
    requires WellNamed(doc) && Spelled(Meaning(doc), ts) && Resolve(Meaning(doc), ts) == Some(List(cur))
    requires |cur| == |a| && (forall i :: c <= i < |a| ==> cur[i] == Meaning(a[i])) && ItemsBelow(a, h)
    requires (forall i :: 0 <= i < |a| ==> WellNamed(a[i])) && (forall i :: 0 <= i < |b| ==> WellNamed(b[i]))
    ensures Becomes(ApplyPatches(doc, GenPairs(PointerText(ts), a, b, c, h)),
                    Replace(Meaning(doc), ts, List(PairsDone(cur, a, b, c))))
    decreases h, 0, |a| - c
  {
    hide ApplyPatches, PointerText, Resolve, Replace, WellNamed, Spelled, Gen, Patched, Digits, Meaning;
    if c >= |a| || c >= |b| {
      ReplaceSelf(Meaning(doc), ts);
      ApplyNone(doc, Meaning(doc));
    } else {
      var t, y := Index(c), Patched(a[c], b[c]);
      var next, done := cur[c := y], PairsDone(cur, a, b, c);
      OneToken(List(cur), t, y);
      Down(doc, ts, t, List(cur), cur[c], y);
      ApplyGen(doc, ts + [t], a[c], b[c]);
      var first := Gen(PointerText(ts + [t]), a[c], b[c]);
      var mid := ApplyPatches(doc, first).doc;
      Local(doc, mid, ts, List(next), List(done));
      ApplyPairs(mid, ts, next, a, b, c + 1, h);
      Sequence(doc, first, GenPairs(PointerText(ts), a, b, c + 1, h), Meaning(mid),
        Replace(Meaning(doc), ts, List(done)));
    }
  }

  /** The current members are, for those still to be walked over, those of a. */
  ghost predicate Agrees(cur: map<string, Entry>, a: seq<Member>) {
    forall i :: 0 <= i < |a| ==>
      Fold(a[i].key) in cur && cur[Fold(a[i].key)] == Entry(a[i].key, Meaning(a[i].value))
  }

  lemma AgreesOn(cur: map<string, Entry>, a: seq<Member>, f: string, e: Entry)
    requires Agrees(cur, a)
    ensures First(a, f) == |a| ==> Agrees(cur[f := e], a) && Agrees(cur - {f}, a)
    ensures a != [] && First(a[1..], f) == |a| - 1 ==> Agrees(cur[f := e], a[1..]) && Agrees(cur - {f}, a[1..])
    ensures a != [] ==> Agrees(cur, a[1..])
  {
    hide Fold, Meaning;
    if First(a, f) == |a| {
      assert forall i :: 0 <= i < |a| ==> Fold(a[i].key) != f;
    }
    if a != [] && First(a[1..], f) == |a| - 1 {
      var rest := a[1..];
      assert forall i :: 0 <= i < |rest| ==> Fold(rest[i].key) != f;
    }
  }

  predicate AllWellNamed(s: seq<Member>) {
    forall i :: 0 <= i < |s| ==> WellNamed(s[i].value)
  }

  lemma ApplyObject(doc: Json, ts: seq<Token>, a: seq<Member>, b: seq<Member>)
    requires Ready(doc, ts, Obj(a)) && WellNamed(Obj(b))
    ensures Becomes(ApplyPatches(doc, Gen(PointerText(ts), Obj(a), Obj(b))),
                    Replace(Meaning(doc), ts, Patched(Obj(a), Obj(b))))
    decreases Height(Obj(a)), 1
  {
    hide ApplyPatches, PointerText, Resolve, Replace, Spelled, Patched, Gen, Sorted, GenMembers, MeaningMembers, Fold;
    var h := Height(Obj(a));
    SortedBelow(a);
    SortedStrict(a);
    SortedStrict(b);
    SortedWellNamed(a, Sorted(a));
    SortedWellNamed(b, Sorted(b));
    SortedAgrees(a, Sorted(a));
    ApplyMembers(doc, ts, MeaningMembers(a), Sorted(a), Sorted(b), h);
    TargetIsPatched(a, b);
    GenObject(PointerText(ts), a, b);
  }

  lemma GenObject(path: string, a: seq<Member>, b: seq<Member>)
    requires MembersBelow(Sorted(a), Height(Obj(a)))
    ensures Gen(path, Obj(a), Obj(b)) == GenMembers(path, Sorted(a), Sorted(b), Height(Obj(a)))
  {
    hide GenMembers, Sorted;
  }

  lemma SortedWellNamed(s: seq<Member>, t: seq<Member>)
    requires AllWellNamed(s) && multiset(s) == multiset(t)
    ensures AllWellNamed(t)
  {
    forall i | 0 <= i < |t| ensures WellNamed(t[i].value) {
      assert t[i] in multiset(s);
    }
  }

  lemma SortedAgrees(s: seq<Member>, t: seq<Member>)
    requires DistinctNames(s) && multiset(s) == multiset(t)
    ensures Agrees(MeaningMembers(s), t)
  {
    hide Fold, MeaningMembers, Meaning;
    MapOf(s);
    forall i | 0 <= i < |t|
      ensures Fold(t[i].key) in MeaningMembers(s)
      ensures MeaningMembers(s)[Fold(t[i].key)] == Entry(t[i].key, Meaning(t[i].value))
    {
      assert t[i] in multiset(s);
      var k :| 0 <= k < |s| && s[k] == t[i];
    }
  }

  /** The walk over two sorted member lists. */
  lemma {:induction false} ApplyMembers(doc: Json, ts: seq<Token>, cur: map<string, Entry>, a: seq<Member>,
    b: seq<Member>, h: nat)
    requires WellNamed(doc) && Spelled(Meaning(doc), ts) && Resolve(Meaning(doc), ts) == Some(Object(cur))
    requires Strict(a) && Strict(b) && AllWellNamed(a) && AllWellNamed(b) && Agrees(cur, a) && MembersBelow(a, h)
    ensures Becomes(ApplyPatches(doc, GenMembers(PointerText(ts), a, b, h)),
                    Replace(Meaning(doc), ts, Object(Target(cur, a, b))))
    decreases h, 0, |a| + |b|
  {
    hide ApplyPatches, PointerText, Resolve, Replace, Spelled, Gen, Patched, Meaning, Target, GenMembers, Diff;
    if a == [] && b == [] {
      ReplaceSelf(Meaning(doc), ts);
      ApplyNone(doc, Meaning(doc));
      WalkEnds(PointerText(ts), cur, h);
    } else {
      if Diff(a, b) == 0 {
        ApplyBoth(doc, ts, cur, a, b, h);
      } else if Diff(a, b) < 0 {
        ApplyOnlyFirst(doc, ts, cur, a, b, h);
      } else {
        ApplyOnlySecond(doc, ts, cur, a, b, h);
      }
    }
  }

  lemma WalkEnds(path: string, cur: map<string, Entry>, h: nat)
    ensures GenMembers(path, [], [], h) == [] && Target(cur, [], []) == cur
  {
  }

  lemma WalkBoth(path: string, cur: map<string, Entry>, a: seq<Member>, b: seq<Member>, h: nat)
    requires (a != [] || b != []) && Diff(a, b) == 0 && a != [] && b != [] && MembersBelow(a, h)
    ensures Height(a[0].value) < h && MembersBelow(a[1..], h)
    ensures GenMembers(path, a, b, h) ==
      Gen(path + ['/'] + Escaped(a[0].key), a[0].value, b[0].value) + GenMembers(path, a[1..], b[1..], h)
    ensures Target(cur, a, b) ==
      Target(cur[Fold(a[0].key) := Entry(a[0].key, Patched(a[0].value, b[0].value))], a[1..], b[1..])
  {
    hide Gen, Patched, Escaped, Fold, Diff;
  }

  lemma ApplyBoth(doc: Json, ts: seq<Token>, cur: map<string, Entry>, a: seq<Member>, b: seq<Member>, h: nat)
    requires WellNamed(doc) && Spelled(Meaning(doc), ts) && Resolve(Meaning(doc), ts) == Some(Object(cur))
    requires Strict(a) && Strict(b) && AllWellNamed(a) && AllWellNamed(b) && Agrees(cur, a) && MembersBelow(a, h)
    requires (a != [] || b != []) && Diff(a, b) == 0
    ensures Becomes(ApplyPatches(doc, GenMembers(PointerText(ts), a, b, h)),
                    Replace(Meaning(doc), ts, Object(Target(cur, a, b))))
    decreases h, 0, |a| + |b|, 0
  {
    hide ApplyPatches, PointerText, Resolve, Replace, Spelled, Gen, Patched, Meaning, Target, GenMembers,
      Diff, Escaped, Fold;
    DiffMeans(a, b);
    WalkBoth(PointerText(ts), cur, a, b, h);
    StrictTail(a);
    StrictTail(b);
    var m, y := a[0], Patched(a[0].value, b[0].value);
    var t, f, e := Name(m.key), Fold(m.key), Entry(m.key, y);
    var done := Target(cur, a, b);
    OneToken(Object(cur), t, y);
    Down(doc, ts, t, Object(cur), Meaning(m.value), y);
    ApplyGen(doc, ts + [t], m.value, b[0].value);
    var first := Gen(PointerText(ts + [t]), m.value, b[0].value);
    var mid := ApplyPatches(doc, first).doc;
    Local(doc, mid, ts, Object(cur[f := e]), Object(done));
    AgreesOn(cur, a, f, e);
    ApplyMembers(mid, ts, cur[f := e], a[1..], b[1..], h);
    Sequence(doc, first, GenMembers(PointerText(ts), a[1..], b[1..], h), Meaning(mid),
      Replace(Meaning(doc), ts, Object(done)));
  }

  lemma WalkFirst(path: string, cur: map<string, Entry>, a: seq<Member>, b: seq<Member>, h: nat)
    requires (a != [] || b != []) && Diff(a, b) < 0 && a != [] && MembersBelow(a, h)
    ensures MembersBelow(a[1..], h)
    ensures GenMembers(path, a, b, h) ==
      [PatchJson("remove", path + ['/'] + Escaped(a[0].key), None)] + GenMembers(path, a[1..], b, h)
    ensures Target(cur, a, b) == Target(cur - {Fold(a[0].key)}, a[1..], b)
  {
    hide Gen, Patched, Escaped, Fold, Diff, PatchJson;
  }

  lemma ApplyOnlyFirst(doc: Json, ts: seq<Token>, cur: map<string, Entry>, a: seq<Member>, b: seq<Member>, h: nat)
    requires WellNamed(doc) && Spelled(Meaning(doc), ts) && Resolve(Meaning(doc), ts) == Some(Object(cur))
    requires Strict(a) && Strict(b) && AllWellNamed(a) && AllWellNamed(b) && Agrees(cur, a) && MembersBelow(a, h)
    requires (a != [] || b != []) && Diff(a, b) < 0
    ensures Becomes(ApplyPatches(doc, GenMembers(PointerText(ts), a, b, h)),
                    Replace(Meaning(doc), ts, Object(Target(cur, a, b))))
    decreases h, 0, |a| + |b|, 0
  {
    hide ApplyPatches, PointerText, Resolve, Replace, Spelled, Meaning, Target, GenMembers, Diff, Escaped,
      Fold, PatchJson;
    DiffMeans(a, b);
    WalkFirst(PointerText(ts), cur, a, b, h);
    StrictTail(a);
    var t, f := Name(a[0].key), Fold(a[0].key);
    var done := Target(cur, a, b);
    RemoveOne(doc, ts, t);
    var p := PatchJson("remove", PointerText(ts) + ['/'] + Escaped(a[0].key), None);
    var mid := ApplyPatches(doc, [p]).doc;
    Local(doc, mid, ts, Object(cur - {f}), Object(done));
    AgreesOn(cur, a, f, Entry("", List([])));
    ApplyMembers(mid, ts, cur - {f}, a[1..], b, h);
    Sequence(doc, [p], GenMembers(PointerText(ts), a[1..], b, h), Meaning(mid), Replace(Meaning(doc),
      ts, Object(done)));
  }

  lemma WalkSecond(path: string, cur: map<string, Entry>, a: seq<Member>, b: seq<Member>, h: nat)
    requires (a != [] || b != []) && Diff(a, b) > 0 && b != [] && MembersBelow(a, h)
    ensures GenMembers(path, a, b, h) ==
      [PatchJson("add", path + ['/'] + Escaped(b[0].key), Some(b[0].value))] + GenMembers(path, a, b[1..], h)
    ensures Target(cur, a, b) == Target(cur[Fold(b[0].key) := Entry(b[0].key, Meaning(b[0].value))], a, b[1..])
  {
    hide Gen, Patched, Escaped, Fold, Diff, PatchJson, Meaning;
  }

  lemma ApplyOnlySecond(doc: Json, ts: seq<Token>, cur: map<string, Entry>, a: seq<Member>, b: seq<Member>, h: nat)
    requires WellNamed(doc) && Spelled(Meaning(doc), ts) && Resolve(Meaning(doc), ts) == Some(Object(cur))
    requires Strict(a) && Strict(b) && AllWellNamed(a) && AllWellNamed(b) && Agrees(cur, a) && MembersBelow(a, h)
    requires (a != [] || b != []) && Diff(a, b) > 0
    ensures Becomes(ApplyPatches(doc, GenMembers(PointerText(ts), a, b, h)),
                    Replace(Meaning(doc), ts, Object(Target(cur, a, b))))
    decreases h, 0, |a| + |b|, 0
  {
    hide ApplyPatches, PointerText, Resolve, Replace, Spelled, Meaning, Target, GenMembers, Diff, Escaped,
      Fold, PatchJson;
    DiffMeans(a, b);
    WalkSecond(PointerText(ts), cur, a, b, h);
    StrictTail(b);
    var t, f, e := Name(b[0].key), Fold(b[0].key), Entry(b[0].key, Meaning(b[0].value));
    var done := Target(cur, a, b);
    AddOne(doc, ts, t, b[0].value);
    var p := PatchJson("add", PointerText(ts) + ['/'] + Escaped(b[0].key), Some(b[0].value));
    var mid := ApplyPatches(doc, [p]).doc;
    Local(doc, mid, ts, Object(cur[f := e]), Object(done));
    AgreesOn(cur, a, f, e);
    ApplyMembers(mid, ts, cur[f := e], a, b[1..], h);
    Sequence(doc, [p], GenMembers(PointerText(ts), a, b[1..], h), Meaning(mid), Replace(Meaning(doc),
      ts, Object(done)));
  }

  /** RFC 6902 section 4, from the program's side: the generated patches apply without error, and the result
      is the second document up to member order, exactly if no array of the first is more than one element
      longer than its counterpart and names equal ignoring case are spelled alike. */
  lemma PatchRoundTrip(from: Json, to: Json)
    requires WellNamed(from) && WellNamed(to) && RootKept(from, to)
    ensures var r := ApplyPatches(from, GeneratePatches(from, to));
      r.Return? && r.code == 0 && WellNamed(r.doc) && (Meaning(r.doc) == Meaning(to) <==> Exact(from, to))
  {
    hide ApplyPatches, Gen, Patched, Meaning, WellNamed, Exact;
    assert PointerText([]) == "";
    RootReady(from);
    ApplyGen(from, [], from, to);
    assert Replace(Meaning(from), [], Patched(from, to)) == Patched(from, to);
    PatchedExactly(from, to);
  }

  lemma RootReady(from: Json)
    requires WellNamed(from)
    ensures Ready(from, [], from)
  {
  }

  /** A root that has to be replaced as a whole takes the program to a null pointer. */
  lemma RootReplaced(from: Json, to: Json)
    requires !RootKept(from, to)
    ensures ApplyPatches(from, GeneratePatches(from, to)) == Crash
  {
    hide Fold;
    PatchFields("replace", "", Some(to));
    var p := PatchJson("replace", "", Some(to));
    assert GeneratePatches(from, to) == [p];
    ApplyOne(from, p);
  }
}
