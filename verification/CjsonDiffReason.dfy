/** Which patches cJSONUtils_GeneratePatches generates: none but for a difference, and none twice. */
module CjsonDiffReason {
  import opened Wrappers
  import opened CjsonKeys
  import opened CjsonString
  import opened CjsonText
  import opened CjsonDoc
  import opened CjsonPointer
  import opened CjsonPointerText
  import opened CjsonCompare
  import opened CjsonPatch
  import opened CjsonDiff
  import CjsonPatchRun

  // ---------------------------------------------------------------- when nothing is generated

  lemma {:induction false} GenIsCompare(path: string, a: Json, b: Json)
    ensures Gen(path, a, b) == [] <==> CompareValues(a, b) == 0
    decreases Height(a), 1
  {
    hide Sorted, GenPairs, GenRemoves, GenAdds, GenMembers, CompareItems, CompareMembers, PatchJson;
    if SameKind(a, b) {
      match a
      case Arr(x) =>
        ArrBelow(x);
        ArrayIsCompare(path, x, b.items, Height(a));
      case Obj(x) =>
        SortedBelow(x);
        MembersIsCompare(path, Sorted(x), Sorted(b.members), Height(a));
      case _ =>
    }
  }

  lemma ArrayIsCompare(path: string, a: seq<Json>, b: seq<Json>, h: nat)
    requires ItemsBelow(a, h)
    ensures GenPairs(path, a, b, 0, h) + GenRemoves(path, |b|, |a|) + GenAdds(path, b, |a|) == []
       <==> CompareItems(a, b, h) == 0
    decreases h, 0, |a| + 1
  {
    hide Gen, CompareValues, PatchJson, Escaped, Digits;
    assert a[0..] == a && b[0..] == b;
    PairsIsCompare(path, a, b, 0, h);
  }

  lemma {:induction false} PairsIsCompare(path: string, a: seq<Json>, b: seq<Json>, c: nat, h: nat)
    requires ItemsBelow(a, h) && c <= |a| && c <= |b|
    ensures ItemsBelow(a[c..], h)
    ensures GenPairs(path, a, b, c, h) == [] && |a| == |b| <==> CompareItems(a[c..], b[c..], h) == 0
    decreases h, 0, |a| - c
  {
    hide Gen, CompareValues;
    if c < |a| && c < |b| {
      GenIsCompare(path + ['/'] + Digits(c), a[c], b[c]);
      PairsIsCompare(path, a, b, c + 1, h);
      assert a[c..][1..] == a[c + 1..] && b[c..][1..] == b[c + 1..];
    }
  }

  lemma {:induction false} MembersIsCompare(path: string, a: seq<Member>, b: seq<Member>, h: nat)
    requires MembersBelow(a, h)
    ensures GenMembers(path, a, b, h) == [] <==> CompareMembers(a, b, h) == 0
    decreases h, 0, |a| + |b|
  {
    hide Gen, CompareValues, PatchJson, Compare, Escaped;
    if a != [] && b != [] && Diff(a, b) == 0 {
      GenIsCompare(path + ['/'] + Escaped(a[0].key), a[0].value, b[0].value);
      MembersIsCompare(path, a[1..], b[1..], h);
    }
  }

  /** There is nothing to patch exactly if the documents are equal up to member order and letter case of names. */
  lemma NothingGenerated(from: Json, to: Json)
    requires WellNamed(from) && WellNamed(to)
    ensures GeneratePatches(from, to) == [] <==> Caseless(Meaning(from)) == Caseless(Meaning(to))
  {
    hide Gen, CompareValues, Caseless, Meaning, WellNamed;
    GenIsCompare("", from, to);
    CompareMeans(from, to);
  }

  // ---------------------------------------------------------------- why a patch is generated

  function Front(ts: seq<Token>): seq<Token>
    requires ts != []
  {
    ts[..|ts| - 1]
  }

  /** Both documents have an array at the place, or both have an object. */
  ghost predicate Shared(d: Doc, e: Doc, ts: seq<Token>) {
    match (Resolve(d, ts), Resolve(e, ts))
    case (Some(List(_)), Some(List(_))) => true
    case (Some(Object(_)), Some(Object(_))) => true
    case _ => false
  }

  /** The place has a part in both documents, not an array or object in both, and the parts differ. */
  ghost predicate Replaced(d: Doc, e: Doc, ts: seq<Token>, x: Doc) {
    && Resolve(d, ts).Some? && Resolve(e, ts) == Some(x) && Caseless(Resolve(d, ts).value) != Caseless(x)
    && !Shared(d, e, ts)
  }

  /** Only the first document has the place. */
  ghost predicate Removed(d: Doc, e: Doc, ts: seq<Token>) {
    ts != [] && Shared(d, e, Front(ts)) && Resolve(d, ts).Some? && Resolve(e, ts).None?
  }

  /** Only the second document has the member. */
  ghost predicate Joined(d: Doc, e: Doc, ts: seq<Token>, x: Doc) {
    ts != [] && Shared(d, e, Front(ts)) && Resolve(d, ts).None? && Resolve(e, ts) == Some(x)
  }

  /** The place is the end of an array, and x is an element behind it in the second document. */
  ghost predicate Appended(d: Doc, e: Doc, ts: seq<Token>, x: Doc) {
    && AtEnd(d, ts) && Shared(d, e, Front(ts))
    && exists n :: |Resolve(d, Front(ts)).value.items| <= n < |Resolve(e, Front(ts)).value.items|
                   && Resolve(e, Front(ts)).value.items[n] == x
  }

  ghost predicate AtEnd(d: Doc, ts: seq<Token>) {
    && ts != [] && ts[|ts| - 1] == Name("-")
    && Resolve(d, Front(ts)).Some? && Resolve(d, Front(ts)).value.List?
  }

  ghost predicate Reason(op: string, w: Option<Json>, d: Doc, e: Doc, ts: seq<Token>) {
    || (op == "replace" && w.Some? && Replaced(d, e, ts, Meaning(w.value)))
    || (op == "remove" && w.None? && Removed(d, e, ts))
    || (op == "add" && w.Some? && (Joined(d, e, ts, Meaning(w.value)) || Appended(d, e, ts, Meaning(w.value))))
  }

  /** The patch is there for a difference of the documents at a place below the path. */
  ghost predicate Explained(p: Json, path: string, d: Doc, e: Doc) {
    exists op, w, ts :: p == PatchJson(op, path + PointerText(ts), w) && Reason(op, w, d, e, ts)
  }

  ghost predicate AllExplained(ps: seq<Json>, path: string, d: Doc, e: Doc) {
    forall p :: p in ps ==> Explained(p, path, d, e)
  }

  /** One level up. */
  lemma SharedUp(d: Doc, e: Doc, t: Token, ts: seq<Token>)
    requires Resolve(d, [t]).Some? && Resolve(e, [t]).Some?
    ensures Shared(d, e, [t] + ts) == Shared(Resolve(d, [t]).value, Resolve(e, [t]).value, ts)
  {
    hide Resolve;
    ResolveStep(d, t, ts);
    ResolveStep(e, t, ts);
  }

  lemma ReasonUp(op: string, w: Option<Json>, d: Doc, e: Doc, t: Token, ts: seq<Token>)
    requires Resolve(d, [t]).Some? && Resolve(e, [t]).Some?
    requires Reason(op, w, Resolve(d, [t]).value, Resolve(e, [t]).value, ts)
    ensures Reason(op, w, d, e, [t] + ts)
  {
    hide Resolve, Shared, Meaning, Caseless;
    ResolveStep(d, t, ts);
    ResolveStep(e, t, ts);
    SharedUp(d, e, t, ts);
    if ts != [] {
      assert Front([t] + ts) == [t] + Front(ts);
      ResolveStep(d, t, Front(ts));
      ResolveStep(e, t, Front(ts));
      SharedUp(d, e, t, Front(ts));
    }
  }

  lemma PathUp(path: string, t: Token, ts: seq<Token>)
    ensures path + ['/'] + TokenText(t) + PointerText(ts) == path + PointerText([t] + ts)
  {
    hide TokenText;
    assert ([t] + ts)[1..] == ts;
  }

  lemma ExplainedUp(p: Json, path: string, d: Doc, e: Doc, t: Token)
    requires Resolve(d, [t]).Some? && Resolve(e, [t]).Some?
    requires Explained(p, path + ['/'] + TokenText(t), Resolve(d, [t]).value, Resolve(e, [t]).value)
    ensures Explained(p, path, d, e) && Under(p, path, t)
  {
    hide Resolve, Reason, PatchJson, TokenText, PointerText;
    var op, w, ts :| p == PatchJson(op, path + ['/'] + TokenText(t) + PointerText(ts), w)
      && Reason(op, w, Resolve(d, [t]).value, Resolve(e, [t]).value, ts);
    PathUp(path, t, ts);
    ReasonUp(op, w, d, e, t, ts);
  }

  /** The patch is for a place that the path and the token lead to, or below it. */
  ghost predicate Under(p: Json, path: string, t: Token) {
    exists op, w, ts :: p == PatchJson(op, path + PointerText([t] + ts), w)
  }

  lemma UnderOne(op: string, path: string, t: Token, w: Option<Json>)
    ensures Under(PatchJson(op, path + ['/'] + TokenText(t), w), path, t)
    ensures path + PointerText([t]) == path + ['/'] + TokenText(t)
  {
    hide PatchJson, TokenText;
    PathUp(path, t, []);
    assert [t] + [] == [t];
    assert path + ['/'] + TokenText(t) + PointerText([]) == path + ['/'] + TokenText(t);
    assert PatchJson(op, path + ['/'] + TokenText(t), w) == PatchJson(op, path + PointerText([t] + []), w);
  }

  // ---------------------------------------------------------------- no place twice

  function PatchPath(p: Json): string {
    match Lookup(p, "path")
    case Some(Str(s)) => s
    case _ => ""
  }

  /** The patch appends to an array of the first document. */
  ghost predicate Appends(p: Json, path: string, d: Doc) {
    exists ts, w :: p == PatchJson("add", path + PointerText(ts), w) && AtEnd(d, ts)
  }

  /** Two patches for one place only append, one after the other, to an array. */
  ghost predicate Apart(ps: seq<Json>, path: string, d: Doc) {
    forall i, j :: 0 <= i < j < |ps| && PatchPath(ps[i]) == PatchPath(ps[j]) ==>
      Appends(ps[i], path, d) && Appends(ps[j], path, d)
  }

  lemma AppendsUp(p: Json, path: string, d: Doc, t: Token)
    requires Resolve(d, [t]).Some? && Appends(p, path + ['/'] + TokenText(t), Resolve(d, [t]).value)
    ensures Appends(p, path, d)
  {
    hide Resolve, PatchJson, TokenText, PointerText;
    var ts, w :| p == PatchJson("add", path + ['/'] + TokenText(t) + PointerText(ts), w)
      && AtEnd(Resolve(d, [t]).value, ts);
    PathUp(path, t, ts);
    assert Front([t] + ts) == [t] + Front(ts);
    ResolveStep(d, t, Front(ts));
    assert AtEnd(d, [t] + ts);
  }

  lemma ApartUp(ps: seq<Json>, path: string, d: Doc, t: Token)
    requires Resolve(d, [t]).Some? && Apart(ps, path + ['/'] + TokenText(t), Resolve(d, [t]).value)
    ensures Apart(ps, path, d)
  {
    hide Resolve, Appends, PatchPath;
    forall i | 0 <= i < |ps| && Appends(ps[i], path + ['/'] + TokenText(t), Resolve(d, [t]).value)
      ensures Appends(ps[i], path, d)
    {
      AppendsUp(ps[i], path, d, t);
    }
  }

  /** The patches are for places that one of the keys leads to. */
  ghost predicate AllUnder(ps: seq<Json>, path: string, keys: iset<string>) {
    forall p :: p in ps ==> exists t :: CjsonPatchRun.Key(t) in keys && Under(p, path, t)
  }

  lemma SameText(path: string, t: Token, ts: seq<Token>, u: Token, us: seq<Token>)
    requires path + PointerText([t] + ts) == path + PointerText([u] + us)
    ensures CjsonPatchRun.Key(t) == CjsonPatchRun.Key(u)
  {
    hide PointerText, Tokens, CjsonPatchRun.Key;
    var ks, ls := CjsonPatchRun.Keys([t] + ts), CjsonPatchRun.Keys([u] + us);
    CjsonPatchRun.KeysText([t] + ts);
    CjsonPatchRun.KeysText([u] + us);
    var s := PointerText([t] + ts);
    assert s == (path + s)[|path|..];
    assert PointerText([u] + us) == (path + s)[|path|..];
    PointerTexts(s, ks);
    PointerTexts(s, ls);
    assert ks[0] == ls[0];
  }

  lemma UnderDiffers(p: Json, q: Json, path: string, t: Token, u: Token)
    requires Under(p, path, t) && Under(q, path, u) && CjsonPatchRun.Key(t) != CjsonPatchRun.Key(u)
    ensures PatchPath(p) != PatchPath(q)
  {
    hide PointerText, PatchJson, CjsonPatchRun.Key, Lookup;
    var op, w, ts :| p == PatchJson(op, path + PointerText([t] + ts), w);
    var op', w', us :| q == PatchJson(op', path + PointerText([u] + us), w');
    CjsonPatchRun.PatchFields(op, path + PointerText([t] + ts), w);
    CjsonPatchRun.PatchFields(op', path + PointerText([u] + us), w');
    if PatchPath(p) == PatchPath(q) {
      SameText(path, t, ts, u, us);
    }
  }

  // ---------------------------------------------------------------- in order

  /** The patch is for the place that the tokens lead to, or below it. */
  ghost predicate BelowPlace(p: Json, path: string, ts: seq<Token>) {
    exists us :: PatchPath(p) == path + PointerText(ts + us)
  }

  /** Members of an object in the order of the sort; elements of an array by index, what is appended behind them. */
  predicate InOrder(c: Doc, t: Token, u: Token) {
    match c
    case Object(_) => t.Name? && u.Name? ==> Compare(t.name, u.name) <= 0
    case List(_) => (t.Index? && u.Index? ==> t.n <= u.n) && (t == Name("-") ==> !u.Index?)
    case Leaf(_) => true
  }

  ghost predicate OrderedPair(p: Json, q: Json, path: string, d: Doc) {
    forall ts, t, u :: BelowPlace(p, path, ts + [t]) && BelowPlace(q, path, ts + [u]) && Resolve(d, ts).Some? ==>
      InOrder(Resolve(d, ts).value, t, u)
  }

  /** In every array and object of the first document the patches come in order. */
  ghost predicate Orderly(ps: seq<Json>, path: string, d: Doc) {
    forall i, j :: 0 <= i < j < |ps| ==> OrderedPair(ps[i], ps[j], path, d)
  }

  ghost predicate KeyOrder(d: Doc, k: string, l: string) {
    forall t, u :: CjsonPatchRun.Key(t) == k && CjsonPatchRun.Key(u) == l ==> InOrder(d, t, u)
  }

  ghost predicate KeysInOrder(d: Doc, keys: iset<string>, more: iset<string>) {
    forall k, l :: k in keys && l in more ==> KeyOrder(d, k, l)
  }

  lemma UnderPath(p: Json, path: string, t: Token) returns (us: seq<Token>)
    requires Under(p, path, t)
    ensures PatchPath(p) == path + PointerText([t] + us)
  {
    hide PointerText, PatchJson, Lookup;
    var op, w, ts :| p == PatchJson(op, path + PointerText([t] + ts), w);
    CjsonPatchRun.PatchFields(op, path + PointerText([t] + ts), w);
    us := ts;
  }

  /** All tokens that lead to the place of a patch begin alike. */
  lemma FirstKey(p: Json, path: string, t: Token, ts: seq<Token>)
    requires Under(p, path, t) && ts != [] && BelowPlace(p, path, ts)
    ensures CjsonPatchRun.Key(ts[0]) == CjsonPatchRun.Key(t)
  {
    hide PointerText, PatchPath, Under, CjsonPatchRun.Key;
    var us := UnderPath(p, path, t);
    var vs :| PatchPath(p) == path + PointerText(ts + vs);
    assert ts + vs == [ts[0]] + (ts[1..] + vs);
    SameText(path, t, us, ts[0], ts[1..] + vs);
  }

  lemma FirstResolves(d: Doc, ts: seq<Token>)
    requires ts != [] && Resolve(d, ts).Some?
    ensures Resolve(d, [ts[0]]).Some? && Resolve(d, ts) == Resolve(Resolve(d, [ts[0]]).value, ts[1..])
  {
    ResolveOne(d, ts[0]);
    ResolveStep(d, ts[0], ts[1..]);
    assert [ts[0]] + ts[1..] == ts;
  }

  lemma SameKeyInOrder(d: Doc, t: Token, u: Token)
    requires CjsonPatchRun.Key(t) == CjsonPatchRun.Key(u)
    ensures InOrder(d, t, u)
  {
    hide Digits, Compare;
    if t.Name? {
      CompareSelf(t.name);
    }
    if t.Index? {
      AtoiDigits(t.n);
      CjsonPatchRun.DigitsValue(t.n);
    }
    if u.Index? {
      AtoiDigits(u.n);
      CjsonPatchRun.DigitsValue(u.n);
    }
  }

  /** Tokens with the same key that lead somewhere are the same. */
  lemma SameToken(d: Doc, t: Token, u: Token)
    requires CjsonPatchRun.Key(t) == CjsonPatchRun.Key(u) && Resolve(d, [t]).Some? && Resolve(d, [u]).Some?
    ensures t == u
  {
    hide CjsonPatchRun.Key, Resolve;
    assert CjsonPatchRun.Keys([t]) == CjsonPatchRun.Keys([u]);
    SamePlace(d, [t], [u]);
  }

  /** Patches for two different places of one container, or for the end of an array. */
  lemma PairHere(p: Json, q: Json, path: string, d: Doc, t: Token, u: Token)
    requires Under(p, path, t) && Under(q, path, u) && KeyOrder(d, CjsonPatchRun.Key(t), CjsonPatchRun.Key(u))
    requires CjsonPatchRun.Key(t) != CjsonPatchRun.Key(u)
      || forall x :: CjsonPatchRun.Key(x) == CjsonPatchRun.Key(t) ==> Resolve(d, [x]).None?
    ensures OrderedPair(p, q, path, d)
  {
    hide Under, BelowPlace, InOrder, CjsonPatchRun.Key, Resolve;
    forall ts, v, w | BelowPlace(p, path, ts + [v]) && BelowPlace(q, path, ts + [w]) && Resolve(d, ts).Some?
      ensures InOrder(Resolve(d, ts).value, v, w)
    {
      assert ts == [] ==> (ts + [v])[0] == v && (ts + [w])[0] == w;
      assert ts != [] ==> (ts + [v])[0] == ts[0] == (ts + [w])[0];
      if ts == [] {
        ResolveNone(d);
      } else {
        FirstResolves(d, ts);
      }
      FirstKey(p, path, t, ts + [v]);
      FirstKey(q, path, u, ts + [w]);
    }
  }

  lemma ResolveNone(d: Doc)
    ensures Resolve(d, []) == Some(d)
  {
  }

  /** Patches for the same part of the container. */
  lemma PairUp(p: Json, q: Json, path: string, d: Doc, t: Token)
    requires Under(p, path, t) && Under(q, path, t) && Resolve(d, [t]).Some?
    requires OrderedPair(p, q, path + ['/'] + TokenText(t), Resolve(d, [t]).value)
    ensures OrderedPair(p, q, path, d)
  {
    hide Under, BelowPlace, InOrder, CjsonPatchRun.Key, Resolve, TokenText;
    forall ts, v, w | BelowPlace(p, path, ts + [v]) && BelowPlace(q, path, ts + [w]) && Resolve(d, ts).Some?
      ensures InOrder(Resolve(d, ts).value, v, w)
    {
      FirstKey(p, path, t, ts + [v]);
      FirstKey(q, path, t, ts + [w]);
      if ts == [] {
        ResolveNone(d);
        assert (ts + [v])[0] == v && (ts + [w])[0] == w;
        SameKeyInOrder(d, v, w);
      } else {
        FirstResolves(d, ts);
        SameToken(d, ts[0], t);
        BelowDown(p, path, t, ts, v);
        BelowDown(q, path, t, ts, w);
      }
    }
  }

  lemma BelowDown(p: Json, path: string, t: Token, ts: seq<Token>, v: Token)
    requires ts != [] && ts[0] == t && BelowPlace(p, path, ts + [v])
    ensures BelowPlace(p, path + ['/'] + TokenText(t), ts[1..] + [v])
  {
    hide PatchPath, TokenText, PointerText;
    var us :| PatchPath(p) == path + PointerText(ts + [v] + us);
    assert ts + [v] + us == [t] + (ts[1..] + [v] + us);
    PathUp(path, t, ts[1..] + [v] + us);
  }

  /** Patches generated for one part: for a reason each, for its own place, and in order. */
  ghost predicate Good(ps: seq<Json>, path: string, d: Doc, e: Doc, keys: iset<string>) {
    AllExplained(ps, path, d, e) && Apart(ps, path, d) && Orderly(ps, path, d) && AllUnder(ps, path, keys)
  }

  lemma GoodConcat(ps: seq<Json>, qs: seq<Json>, path: string, d: Doc, e: Doc, keys: iset<string>, more: iset<string>)
    requires Good(ps, path, d, e, keys) && Good(qs, path, d, e, more) && keys !! more && KeysInOrder(d, keys, more)
    ensures Good(ps + qs, path, d, e, keys + more)
  {
    hide Explained, Appends, Under, PatchPath, OrderedPair, KeyOrder;
    forall p, q | p in ps && q in qs ensures PatchPath(p) != PatchPath(q) && OrderedPair(p, q, path, d) {
      var t :| CjsonPatchRun.Key(t) in keys && Under(p, path, t);
      var u :| CjsonPatchRun.Key(u) in more && Under(q, path, u);
      UnderDiffers(p, q, path, t, u);
      PairHere(p, q, path, d, t, u);
    }
    var rs := ps + qs;
    assert forall i :: 0 <= i < |rs| ==> rs[i] == if i < |ps| then ps[i] else qs[i - |ps|];
  }

  lemma GoodNone(path: string, d: Doc, e: Doc)
    ensures Good([], path, d, e, iset{})
  {
  }

  lemma GoodWider(ps: seq<Json>, path: string, d: Doc, e: Doc, keys: iset<string>, more: iset<string>)
    requires Good(ps, path, d, e, keys) && keys <= more
    ensures Good(ps, path, d, e, more)
  {
    hide Explained, Apart, Orderly, Under;
  }

  /** The patches of a part, seen from the container. */
  lemma GoodUp(ps: seq<Json>, path: string, d: Doc, e: Doc, t: Token)
    requires Resolve(d, [t]).Some? && Resolve(e, [t]).Some?
    requires AllExplained(ps, path + ['/'] + TokenText(t), Resolve(d, [t]).value, Resolve(e, [t]).value)
    requires Apart(ps, path + ['/'] + TokenText(t), Resolve(d, [t]).value)
    requires Orderly(ps, path + ['/'] + TokenText(t), Resolve(d, [t]).value)
    ensures Good(ps, path, d, e, iset{CjsonPatchRun.Key(t)})
  {
    hide Explained, Under, Apart, OrderedPair, TokenText, Resolve;
    ApartUp(ps, path, d, t);
    forall p | p in ps ensures Explained(p, path, d, e) && Under(p, path, t) {
      ExplainedUp(p, path, d, e, t);
    }
    forall i, j | 0 <= i < j < |ps| ensures OrderedPair(ps[i], ps[j], path, d) {
      PairUp(ps[i], ps[j], path, d, t);
    }
  }

  lemma GoodOne(op: string, path: string, t: Token, w: Option<Json>, d: Doc, e: Doc)
    requires Reason(op, w, d, e, [t])
    ensures Good([PatchJson(op, path + ['/'] + TokenText(t), w)], path, d, e, iset{CjsonPatchRun.Key(t)})
  {
    hide Reason, PatchJson, TokenText, PointerText, Appends;
    UnderOne(op, path, t, w);
    var p := PatchJson(op, path + ['/'] + TokenText(t), w);
    assert Explained(p, path, d, e);
  }

  // ---------------------------------------------------------------- arrays

  ghost function Numbers(c: nat, n: nat): iset<string> {
    iset i: nat | c <= i < n :: Digits(i)
  }

  lemma OneNumber(c: nat, n: nat)
    requires c < n
    ensures iset{CjsonPatchRun.Key(Index(c))} + Numbers(c + 1, n) == Numbers(c, n)
    ensures iset{CjsonPatchRun.Key(Index(c))} !! Numbers(c + 1, n)
  {
    hide Digits;
    forall i: nat | c < i < n ensures Digits(i) != Digits(c) {
      CjsonPatchRun.DigitsValue(c);
      CjsonPatchRun.DigitsValue(i);
    }
  }

  lemma NumbersApart(c: nat, m: nat, n: nat)
    requires c <= m <= n
    ensures Numbers(c, m) !! Numbers(m, n) && "-" !in Numbers(c, n)
  {
    hide Digits;
    forall i: nat | c <= i < n ensures Digits(i) != "-" {
      AtoiDigits(i);
    }
    forall i: nat, j: nat | c <= i < m && m <= j < n ensures Digits(i) != Digits(j) {
      CjsonPatchRun.DigitsValue(i);
      CjsonPatchRun.DigitsValue(j);
    }
  }

  lemma DigitOrder(items: seq<Doc>, i: nat, j: nat)
    requires i <= j
    ensures KeyOrder(List(items), Digits(i), Digits(j))
  {
    hide Digits;
    forall t, u | CjsonPatchRun.Key(t) == Digits(i) && CjsonPatchRun.Key(u) == Digits(j)
      ensures InOrder(List(items), t, u)
    {
      CjsonPatchRun.DigitsValue(i);
      CjsonPatchRun.DigitsValue(j);
      AtoiDigits(i);
      if t.Index? {
        CjsonPatchRun.DigitsValue(t.n);
      }
      if u.Index? {
        CjsonPatchRun.DigitsValue(u.n);
      }
    }
  }

  lemma NumbersInOrder(items: seq<Doc>, c: nat, m: nat, n: nat)
    requires c < m
    ensures KeysInOrder(List(items), iset{CjsonPatchRun.Key(Index(c))}, Numbers(m, n))
  {
    hide Digits, KeyOrder;
    forall j: nat | m <= j < n ensures KeyOrder(List(items), Digits(c), Digits(j)) {
      DigitOrder(items, c, j);
    }
  }

  lemma AllNumbersInOrder(items: seq<Doc>, m: nat, n: nat, k: nat)
    requires m <= n
    ensures KeysInOrder(List(items), Numbers(0, m), Numbers(n, k))
  {
    hide Digits, KeyOrder;
    forall i: nat, j: nat | i < m && n <= j < k ensures KeyOrder(List(items), Digits(i), Digits(j)) {
      DigitOrder(items, i, j);
    }
  }

  lemma DashLast(items: seq<Doc>, keys: iset<string>)
    ensures "-" !in keys ==> KeysInOrder(List(items), keys, iset{"-"})
    ensures KeyOrder(List(items), "-", "-")
    ensures forall x :: CjsonPatchRun.Key(x) == "-" ==> Resolve(List(items), [x]).None?
  {
    hide Digits, Fold;
    forall n: nat ensures Digits(n) != "-" {
      AtoiDigits(n);
    }
    forall x | CjsonPatchRun.Key(x) == "-" ensures Resolve(List(items), [x]).None? {
      ResolveOne(List(items), x);
    }
  }

  lemma ElementAt(items: seq<Json>, c: nat)
    ensures Resolve(List(Docs(items)), [Index(c)]) == if c < |items| then Some(Meaning(items[c])) else None
    ensures Resolve(List(Docs(items)), []) == Some(List(Docs(items)))
  {
    hide Meaning;
    ResolveOne(List(Docs(items)), Index(c));
  }

  lemma {:induction false} PairsGood(path: string, a: seq<Json>, b: seq<Json>, c: nat, h: nat)
    requires ItemsBelow(a, h) && WellNamed(Arr(a)) && WellNamed(Arr(b))
    ensures Good(GenPairs(path, a, b, c, h), path, List(Docs(a)), List(Docs(b)), Numbers(c, Least(|a|, |b|)))
    decreases h, 0, |a| - c
  {
    hide Good, Gen, Meaning, WellNamed, AllExplained, Apart, Orderly, KeysInOrder, Digits, Resolve, Numbers, Docs;
    var d, e, n := List(Docs(a)), List(Docs(b)), Least(|a|, |b|);
    if c < n {
      WellNamedParts(Arr(a));
      WellNamedParts(Arr(b));
      var here := path + ['/'] + Digits(c);
      GenGood(here, a[c], b[c]);
      ElementAt(a, c);
      ElementAt(b, c);
      GoodUp(Gen(here, a[c], b[c]), path, d, e, Index(c));
      PairsGood(path, a, b, c + 1, h);
      OneNumber(c, n);
      NumbersInOrder(Docs(a), c, c + 1, n);
      GoodConcat(Gen(here, a[c], b[c]), GenPairs(path, a, b, c + 1, h), path, d, e,
        iset{CjsonPatchRun.Key(Index(c))}, Numbers(c + 1, n));
    } else {
      GoodNone(path, d, e);
      GoodWider([], path, d, e, iset{}, Numbers(c, n));
    }
  }

  lemma RemovalOfElement(a: seq<Json>, b: seq<Json>, c: nat)
    requires |b| <= c < |a|
    ensures Reason("remove", None, List(Docs(a)), List(Docs(b)), [Index(c)])
  {
    hide Docs, Resolve;
    ElementAt(a, c);
    ElementAt(b, c);
    assert Front([Index(c)]) == [];
  }

  lemma {:induction false} RemovesGood(path: string, a: seq<Json>, b: seq<Json>, c: nat)
    requires |b| <= c
    ensures Good(GenRemoves(path, c, |a|), path, List(Docs(a)), List(Docs(b)), Numbers(c, |a|))
    decreases |a| - c
  {
    hide Good, Digits, Reason, Numbers, Docs, PatchJson, Escaped, KeysInOrder;
    var d, e := List(Docs(a)), List(Docs(b));
    if c < |a| {
      CjsonPatchRun.DigitsValue(c);
      EscapedPlain(Digits(c));
      RemovalOfElement(a, b, c);
      GoodOne("remove", path, Index(c), None, d, e);
      RemovesGood(path, a, b, c + 1);
      OneNumber(c, |a|);
      NumbersInOrder(Docs(a), c, c + 1, |a|);
      GoodConcat([PatchJson("remove", path + ['/'] + Digits(c), None)], GenRemoves(path, c + 1, |a|), path, d, e,
        iset{CjsonPatchRun.Key(Index(c))}, Numbers(c + 1, |a|));
    } else {
      GoodNone(path, d, e);
      GoodWider([], path, d, e, iset{}, Numbers(c, |a|));
    }
  }

  lemma AdditionOfElement(a: seq<Json>, b: seq<Json>, c: nat)
    requires |a| <= c < |b|
    ensures Reason("add", Some(b[c]), List(Docs(a)), List(Docs(b)), [Name("-")])
    ensures AtEnd(List(Docs(a)), [Name("-")])
  {
    hide Resolve, Meaning;
    ElementAt(a, c);
    ElementAt(b, c);
    assert Front([Name("-")]) == [];
    assert Docs(b)[c] == Meaning(b[c]);
  }

  lemma AddsOne(path: string, a: seq<Json>, b: seq<Json>, c: nat)
    requires |a| <= c < |b|
    ensures var p := PatchJson("add", path + ['/'] + Escaped("-"), Some(b[c]));
      && Explained(p, path, List(Docs(a)), List(Docs(b))) && Under(p, path, Name("-"))
      && Appends(p, path, List(Docs(a)))
  {
    hide Docs, Reason, PatchJson, Escaped, PointerText, AtEnd;
    AdditionOfElement(a, b, c);
    UnderOne("add", path, Name("-"), Some(b[c]));
  }

  lemma {:induction false} AddsGood(path: string, a: seq<Json>, b: seq<Json>, c: nat)
    requires |a| <= c
    ensures var ps := GenAdds(path, b, c);
      && (forall p :: p in ps ==> Explained(p, path, List(Docs(a)), List(Docs(b))) && Under(p, path, Name("-"))
                                  && Appends(p, path, List(Docs(a))))
      && Good(ps, path, List(Docs(a)), List(Docs(b)), iset{"-"})
    decreases |b| - c
  {
    hide Docs, Explained, Under, Appends, PatchJson, Escaped, PatchPath, OrderedPair, KeyOrder, Resolve, Digits;
    if c < |b| {
      AddsOne(path, a, b, c);
      AddsGood(path, a, b, c + 1);
    }
    assert CjsonPatchRun.Key(Name("-")) == "-";
    DashLast(Docs(a), iset{});
    var ps := GenAdds(path, b, c);
    forall i, j | 0 <= i < j < |ps| ensures OrderedPair(ps[i], ps[j], path, List(Docs(a))) {
      PairHere(ps[i], ps[j], path, List(Docs(a)), Name("-"), Name("-"));
    }
  }

  lemma ArrayGood(path: string, a: seq<Json>, b: seq<Json>, h: nat)
    requires ItemsBelow(a, h) && WellNamed(Arr(a)) && WellNamed(Arr(b))
    ensures var ps := GenPairs(path, a, b, 0, h) + GenRemoves(path, |b|, |a|) + GenAdds(path, b, |a|);
      && AllExplained(ps, path, List(Docs(a)), List(Docs(b)))
      && Apart(ps, path, List(Docs(a))) && Orderly(ps, path, List(Docs(a)))
    decreases h, 0, |a| + 1
  {
    hide GenPairs, GenRemoves, GenAdds, AllExplained, Apart, Orderly, AllUnder, Docs, WellNamed, Numbers, KeysInOrder;
    var d, e, n := List(Docs(a)), List(Docs(b)), Least(|a|, |b|);
    var pairs, removes, adds := GenPairs(path, a, b, 0, h), GenRemoves(path, |b|, |a|), GenAdds(path, b, |a|);
    var pairKeys, removeKeys := Numbers(0, n), Numbers(|b|, |a|);
    PairsGood(path, a, b, 0, h);
    RemovesGood(path, a, b, |b|);
    AddsGood(path, a, b, |a|);
    if |b| <= |a| {
      NumbersApart(0, |b|, |a|);
    } else {
      NoNumbers(|b|, |a|);
    }
    NumbersApart(0, n, n);
    NoDash(|b|, |a|);
    AllNumbersInOrder(Docs(a), n, |b|, |a|);
    DashLast(Docs(a), pairKeys + removeKeys);
    GoodConcat(pairs, removes, path, d, e, pairKeys, removeKeys);
    GoodConcat(pairs + removes, adds, path, d, e, pairKeys + removeKeys, iset{"-"});
  }

  lemma NoNumbers(c: nat, n: nat)
    requires n <= c
    ensures Numbers(c, n) == iset{}
  {
  }

  lemma NoDash(c: nat, n: nat)
    ensures "-" !in Numbers(c, n)
  {
    if c <= n {
      NumbersApart(c, c, n);
    } else {
      NoNumbers(c, n);
    }
  }

  // ---------------------------------------------------------------- objects

  ghost function Names(s: seq<Member>): iset<string> {
    iset i | 0 <= i < |s| :: s[i].key
  }

  /** Names of a that the other document has are among those still to be walked over. */
  ghost predicate Meets(m: map<string, Entry>, a: seq<Member>, b: seq<Member>) {
    forall i :: 0 <= i < |a| && Fold(a[i].key) in m ==> First(b, Fold(a[i].key)) < |b|
  }

  /** Where the walk over both sorted member lists stands. */
  ghost predicate Walking(m: map<string, Entry>, n: map<string, Entry>, a: seq<Member>, b: seq<Member>) {
    && Strict(a) && Strict(b) && WellNamedValues(a) && WellNamedValues(b)
    && CjsonPatchRun.Agrees(m, a) && CjsonPatchRun.Agrees(n, b) && Meets(n, a, b) && Meets(m, b, a)
  }

  lemma MeetsTail(m: map<string, Entry>, a: seq<Member>, b: seq<Member>, f: string)
    requires Meets(m, a, b) && b != [] && Fold(b[0].key) == f && First(a, f) == |a|
    ensures Meets(m, a, b[1..])
  {
    hide Fold;
    forall i | 0 <= i < |a| && Fold(a[i].key) in m ensures First(b[1..], Fold(a[i].key)) < |b| - 1 {
      NotFirst(a, f, i);
      FirstTail(b, Fold(a[i].key));
    }
  }

  lemma {:induction false} NotFirst(a: seq<Member>, f: string, i: nat)
    requires First(a, f) == |a| && i < |a|
    ensures Fold(a[i].key) != f
  {
    hide Fold;
    var j := First(a, f);
  }

  lemma MeetsLess(m: map<string, Entry>, a: seq<Member>, b: seq<Member>)
    requires Meets(m, a, b) && a != []
    ensures Meets(m, a[1..], b)
  {
    hide Fold, First;
    assert forall i :: 0 <= i < |a| - 1 ==> a[1..][i] == a[i + 1];
  }

  lemma WalkOnBoth(m: map<string, Entry>, n: map<string, Entry>, a: seq<Member>, b: seq<Member>)
    requires Walking(m, n, a, b) && (a != [] || b != []) && Diff(a, b) == 0
    ensures a != [] && b != [] && Walking(m, n, a[1..], b[1..])
  {
    hide Fold, First, Compare, WellNamed;
    DiffMeans(a, b);
    StrictTail(a);
    StrictTail(b);
    CjsonPatchRun.AgreesOn(m, a, "", Entry("", List([])));
    CjsonPatchRun.AgreesOn(n, b, "", Entry("", List([])));
    MeetsLess(n, a, b);
    MeetsTail(n, a[1..], b, Fold(b[0].key));
    MeetsLess(m, b, a);
    MeetsTail(m, b[1..], a, Fold(a[0].key));
  }

  lemma WalkOnFirst(m: map<string, Entry>, n: map<string, Entry>, a: seq<Member>, b: seq<Member>)
    requires Walking(m, n, a, b) && (a != [] || b != []) && Diff(a, b) < 0
    ensures a != [] && Walking(m, n, a[1..], b) && Fold(a[0].key) !in n
  {
    hide Fold, First, Compare, WellNamed;
    DiffMeans(a, b);
    StrictTail(a);
    CjsonPatchRun.AgreesOn(m, a, "", Entry("", List([])));
    MeetsLess(n, a, b);
    MeetsTail(m, b, a, Fold(a[0].key));
  }

  lemma WalkOnSecond(m: map<string, Entry>, n: map<string, Entry>, a: seq<Member>, b: seq<Member>)
    requires Walking(m, n, a, b) && (a != [] || b != []) && Diff(a, b) > 0
    ensures b != [] && Walking(m, n, a, b[1..]) && Fold(b[0].key) !in m
  {
    hide Fold, First, Compare, WellNamed;
    DiffMeans(a, b);
    StrictTail(b);
    CjsonPatchRun.AgreesOn(n, b, "", Entry("", List([])));
    MeetsLess(m, b, a);
    MeetsTail(n, a, b, Fold(b[0].key));
  }

  lemma MemberAt(m: map<string, Entry>, k: string)
    ensures Resolve(Object(m), [Name(k)]) == if Fold(k) in m then Some(m[Fold(k)].doc) else None
    ensures Resolve(Object(m), []) == Some(Object(m)) && Front([Name(k)]) == []
  {
    hide Fold;
    ResolveOne(Object(m), Name(k));
  }

  /** The name of the first member is none of the others. */
  lemma NameApart(k: string, s: seq<Member>)
    requires First(s, Fold(k)) == |s|
    ensures iset{CjsonPatchRun.Key(Name(k))} !! Names(s)
  {
    hide Fold;
    forall i | 0 <= i < |s| ensures s[i].key != k {
      NotFirst(s, Fold(k), i);
    }
  }

  lemma NamesParts(s: seq<Member>)
    requires s != []
    ensures Names(s) == iset{CjsonPatchRun.Key(Name(s[0].key))} + Names(s[1..])
  {
    forall k | k in Names(s) ensures k == s[0].key || k in Names(s[1..]) {
      var i :| 0 <= i < |s| && s[i].key == k;
      assert i > 0 ==> s[1..][i - 1] == s[i];
    }
    forall k | k in Names(s[1..]) ensures k in Names(s) {
      var i :| 0 <= i < |s[1..]| && s[1..][i].key == k;
      assert s[i + 1].key == k;
    }
    assert s[0].key in Names(s);
  }

  /** A name before all in both lists. */
  lemma NamesInOrder(m: map<string, Entry>, k: string, a: seq<Member>, b: seq<Member>)
    requires forall i :: 0 <= i < |a| ==> Compare(k, a[i].key) <= 0
    requires forall i :: 0 <= i < |b| ==> Compare(k, b[i].key) <= 0
    ensures KeysInOrder(Object(m), iset{CjsonPatchRun.Key(Name(k))}, Names(a) + Names(b))
  {
    hide Compare;
  }

  /** The smaller of the first names comes before all the others. */
  lemma FirstBefore(k: string, s: seq<Member>)
    requires Strict(s) && NulFree(k) && (s != [] ==> Compare(k, s[0].key) <= 0)
    ensures forall i :: 0 <= i < |s| ==> Compare(k, s[i].key) <= 0
  {
    hide Compare;
    forall i | 0 <= i < |s| ensures Compare(k, s[i].key) <= 0 {
      if i > 0 {
        CompareChains(k, s[0].key, s[i].key);
      }
    }
  }

  lemma {:induction false} MembersGood(path: string, m: map<string, Entry>, n: map<string, Entry>, a: seq<Member>,
    b: seq<Member>, h: nat)
    requires Walking(m, n, a, b) && MembersBelow(a, h)
    ensures Good(GenMembers(path, a, b, h), path, Object(m), Object(n), Names(a) + Names(b))
    decreases h, 0, |a| + |b|
  {
    hide Good, Walking, Names, Gen, Diff, GenMembers;
    if a == [] && b == [] {
      GoodNone(path, Object(m), Object(n));
      GoodWider([], path, Object(m), Object(n), iset{}, Names(a) + Names(b));
      CjsonPatchRun.WalkEnds(path, m, h);
    } else if Diff(a, b) == 0 {
      BothGood(path, m, n, a, b, h);
    } else if Diff(a, b) < 0 {
      OnlyFirstGood(path, m, n, a, b, h);
    } else {
      OnlySecondGood(path, m, n, a, b, h);
    }
  }

  lemma FirstsInOrder(m: map<string, Entry>, a: seq<Member>, b: seq<Member>)
    requires Strict(a) && Strict(b) && (a != [] || b != [])
    ensures Diff(a, b) == 0 && a != [] && b != [] ==>
      KeysInOrder(Object(m), iset{CjsonPatchRun.Key(Name(a[0].key))}, Names(a[1..]) + Names(b[1..]))
    ensures Diff(a, b) < 0 && a != [] ==>
      KeysInOrder(Object(m), iset{CjsonPatchRun.Key(Name(a[0].key))}, Names(a[1..]) + Names(b))
    ensures Diff(a, b) > 0 && b != [] ==>
      KeysInOrder(Object(m), iset{CjsonPatchRun.Key(Name(b[0].key))}, Names(a) + Names(b[1..]))
  {
    hide Compare, KeysInOrder, Names, CjsonPatchRun.Key;
    if a != [] && Diff(a, b) <= 0 {
      FirstBefore(a[0].key, b);
      CompareSelf(a[0].key);
      FirstBefore(a[0].key, a);
      if Diff(a, b) == 0 && b != [] {
        NamesInOrder(m, a[0].key, a[1..], b[1..]);
      } else {
        NamesInOrder(m, a[0].key, a[1..], b);
      }
    } else if b != [] {
      if a != [] {
        CompareFlips(a[0].key, b[0].key);
      }
      FirstBefore(b[0].key, a);
      CompareSelf(b[0].key);
      FirstBefore(b[0].key, b);
      NamesInOrder(m, b[0].key, a, b[1..]);
    }
  }

  lemma BothGood(path: string, m: map<string, Entry>, n: map<string, Entry>, a: seq<Member>, b: seq<Member>, h: nat)
    requires Walking(m, n, a, b) && MembersBelow(a, h) && (a != [] || b != []) && Diff(a, b) == 0
    ensures Good(GenMembers(path, a, b, h), path, Object(m), Object(n), Names(a) + Names(b))
    decreases h, 0, |a| + |b|, 0
  {
    hide Good, Gen, Diff, GenMembers, Names, Meaning, AllExplained, Apart, Orderly, KeysInOrder, Escaped, Fold,
      First, Resolve, Meets, Strict, WellNamed;
    WalkOnBoth(m, n, a, b);
    DiffMeans(a, b);
    CjsonPatchRun.WalkBoth(path, m, a, b, h);
    var t, here := Name(a[0].key), path + ['/'] + Escaped(a[0].key);
    GenGood(here, a[0].value, b[0].value);
    MemberAt(m, a[0].key);
    MemberAt(n, a[0].key);
    GoodUp(Gen(here, a[0].value, b[0].value), path, Object(m), Object(n), t);
    MembersGood(path, m, n, a[1..], b[1..], h);
    StrictTail(a);
    StrictTail(b);
    NameApart(a[0].key, a[1..]);
    NameApart(a[0].key, b[1..]);
    NamesParts(a);
    NamesParts(b);
    var more := Names(a[1..]) + Names(b[1..]);
    FirstsInOrder(m, a, b);
    GoodConcat(Gen(here, a[0].value, b[0].value), GenMembers(path, a[1..], b[1..], h), path, Object(m), Object(n),
      iset{CjsonPatchRun.Key(t)}, more);
    GoodWider(GenMembers(path, a, b, h), path, Object(m), Object(n), iset{CjsonPatchRun.Key(t)} + more,
      Names(a) + Names(b));
  }

  lemma OnlyFirstGood(path: string, m: map<string, Entry>, n: map<string, Entry>, a: seq<Member>, b: seq<Member>,
    h: nat)
    requires Walking(m, n, a, b) && MembersBelow(a, h) && (a != [] || b != []) && Diff(a, b) < 0
    ensures Good(GenMembers(path, a, b, h), path, Object(m), Object(n), Names(a) + Names(b))
    decreases h, 0, |a| + |b|, 0
  {
    hide Good, Gen, Diff, GenMembers, Names, Meaning, Escaped, Fold, First, Resolve, Meets, Strict, PatchJson,
      KeysInOrder;
    WalkOnFirst(m, n, a, b);
    DiffMeans(a, b);
    CjsonPatchRun.WalkFirst(path, m, a, b, h);
    var t := Name(a[0].key);
    MemberAt(m, a[0].key);
    MemberAt(n, a[0].key);
    GoodOne("remove", path, t, None, Object(m), Object(n));
    MembersGood(path, m, n, a[1..], b, h);
    StrictTail(a);
    NameApart(a[0].key, a[1..]);
    NameApart(a[0].key, b);
    NamesParts(a);
    var more := Names(a[1..]) + Names(b);
    FirstsInOrder(m, a, b);
    GoodConcat([PatchJson("remove", path + ['/'] + Escaped(a[0].key), None)], GenMembers(path, a[1..], b, h), path,
      Object(m), Object(n), iset{CjsonPatchRun.Key(t)}, more);
    assert iset{CjsonPatchRun.Key(t)} + more == Names(a) + Names(b);
  }

  lemma OnlySecondGood(path: string, m: map<string, Entry>, n: map<string, Entry>, a: seq<Member>, b: seq<Member>,
    h: nat)
    requires Walking(m, n, a, b) && MembersBelow(a, h) && (a != [] || b != []) && Diff(a, b) > 0
    ensures Good(GenMembers(path, a, b, h), path, Object(m), Object(n), Names(a) + Names(b))
    decreases h, 0, |a| + |b|, 0
  {
    hide Good, Gen, Diff, GenMembers, Names, Meaning, Escaped, Fold, First, Resolve, Meets, Strict, PatchJson,
      KeysInOrder;
    WalkOnSecond(m, n, a, b);
    DiffMeans(a, b);
    CjsonPatchRun.WalkSecond(path, m, a, b, h);
    var t := Name(b[0].key);
    MemberAt(m, b[0].key);
    MemberAt(n, b[0].key);
    GoodOne("add", path, t, Some(b[0].value), Object(m), Object(n));
    MembersGood(path, m, n, a, b[1..], h);
    StrictTail(b);
    NameApart(b[0].key, a);
    NameApart(b[0].key, b[1..]);
    NamesParts(b);
    var more := Names(a) + Names(b[1..]);
    FirstsInOrder(m, a, b);
    GoodConcat([PatchJson("add", path + ['/'] + Escaped(b[0].key), Some(b[0].value))], GenMembers(path, a, b[1..], h),
      path, Object(m), Object(n), iset{CjsonPatchRun.Key(t)}, more);
    assert iset{CjsonPatchRun.Key(t)} + more == Names(a) + Names(b);
  }

  /** The walk begins with all names of both documents ahead of it. */
  lemma WalkBegins(a: seq<Member>, b: seq<Member>)
    requires WellNamed(Obj(a)) && WellNamed(Obj(b))
    ensures Walking(MeaningMembers(a), MeaningMembers(b), Sorted(a), Sorted(b))
  {
    hide Fold, First, Sorted, MeaningMembers, Meaning, Strict, WellNamed, DistinctNames, CjsonPatchRun.Agrees,
      WellNamedValues;
    WellNamedParts(Obj(a));
    WellNamedParts(Obj(b));
    SortedWellNamed(a);
    SortedWellNamed(b);
    SortedStrict(a);
    SortedStrict(b);
    CjsonPatchRun.SortedAgrees(a, Sorted(a));
    CjsonPatchRun.SortedAgrees(b, Sorted(b));
    forall f ensures f in MeaningMembers(a) ==> First(Sorted(a), f) < |Sorted(a)| {
      FirstIs(Sorted(a), f);
    }
    forall f ensures f in MeaningMembers(b) ==> First(Sorted(b), f) < |Sorted(b)| {
      FirstIs(Sorted(b), f);
    }
  }

  // ---------------------------------------------------------------- whole documents

  lemma PartsDiffer(from: Json, to: Json)
    requires !SameKind(from, to) || ((from.Number? || from.Str?) && from != to)
    ensures Caseless(Meaning(from)) != Caseless(Meaning(to))
    ensures !Shared(Meaning(from), Meaning(to), [])
  {
    hide MeaningMembers;
  }

  lemma ReplaceGood(path: string, from: Json, to: Json)
    requires Caseless(Meaning(from)) != Caseless(Meaning(to)) && !Shared(Meaning(from), Meaning(to), [])
    ensures AllExplained([PatchJson("replace", path, Some(to))], path, Meaning(from), Meaning(to))
  {
    hide Caseless, Meaning, PatchJson, Shared;
    assert path + PointerText([]) == path;
    assert Reason("replace", Some(to), Meaning(from), Meaning(to), []);
    assert PatchJson("replace", path, Some(to)) == PatchJson("replace", path + PointerText([]), Some(to));
  }

  /** The patches for one part of the documents. */
  lemma {:induction false} GenGood(path: string, from: Json, to: Json)
    requires WellNamed(from) && WellNamed(to)
    ensures AllExplained(Gen(path, from, to), path, Meaning(from), Meaning(to))
    ensures Apart(Gen(path, from, to), path, Meaning(from)) && Orderly(Gen(path, from, to), path, Meaning(from))
    decreases Height(from), 1
  {
    hide Explained, Appends, OrderedPair, WellNamed, Meaning, PatchJson, GenPairs, GenRemoves, GenAdds,
      GenMembers, Sorted;
    if !SameKind(from, to) || ((from.Number? || from.Str?) && from != to) {
      PartsDiffer(from, to);
      ReplaceGood(path, from, to);
    } else {
      match from
      case Arr(a) =>
        ArrBelow(a);
        ArrayGood(path, a, to.items, Height(from));
        MeaningOfArr(a);
        MeaningOfArr(to.items);
        CjsonPatchRun.GenArray(path, a, to.items);
      case Obj(a) =>
        SortedBelow(a);
        WalkBegins(a, to.members);
        MembersGood(path, MeaningMembers(a), MeaningMembers(to.members), Sorted(a), Sorted(to.members), Height(from));
        MeaningOfObj(a);
        MeaningOfObj(to.members);
      case _ =>
    }
  }

  lemma MeaningOfObj(a: seq<Member>)
    ensures Meaning(Obj(a)) == Object(MeaningMembers(a))
  {
  }

  /** Every generated patch has its difference: a "replace" where both documents have a part and the parts differ,
      and are not both arrays or both objects; a "remove" where only the first has one; an "add" of a member only
      the second has, or of an element behind the array of the first.  No place has two, but for appending, and in
      every array and object they come in order. */
  lemma OnlyForDifferences(from: Json, to: Json)
    requires WellNamed(from) && WellNamed(to)
    ensures AllExplained(GeneratePatches(from, to), "", Meaning(from), Meaning(to))
    ensures Apart(GeneratePatches(from, to), "", Meaning(from))
    ensures Orderly(GeneratePatches(from, to), "", Meaning(from))
  {
    hide WellNamed, Meaning, AllExplained, Apart, Orderly, Gen;
    GenGood("", from, to);
  }

  lemma SameKeys(ts: seq<Token>, us: seq<Token>)
    requires PointerText(ts) == PointerText(us)
    ensures CjsonPatchRun.Keys(ts) == CjsonPatchRun.Keys(us)
  {
    hide PointerText, Tokens, CjsonPatchRun.Key;
    CjsonPatchRun.KeysText(ts);
    CjsonPatchRun.KeysText(us);
    PointerTexts(PointerText(ts), CjsonPatchRun.Keys(ts));
    PointerTexts(PointerText(ts), CjsonPatchRun.Keys(us));
  }

  lemma SamePlace(d: Doc, ts: seq<Token>, us: seq<Token>)
    requires CjsonPatchRun.Keys(ts) == CjsonPatchRun.Keys(us) && Resolve(d, ts).Some? && Resolve(d, us).Some?
    ensures ts == us
  {
    hide Locate, CjsonPatchRun.Key;
    CjsonPatchRun.LocateKeys(d, ts);
    CjsonPatchRun.LocateKeys(d, us);
  }

  lemma {:induction false} FrontResolves(d: Doc, ts: seq<Token>)
    requires ts != [] && Resolve(d, ts).Some?
    ensures Resolve(d, Front(ts)).Some?
    ensures Resolve(Resolve(d, Front(ts)).value, [ts[|ts| - 1]]).Some?
    decreases |ts|
  {
    hide Fold;
    if |ts| > 1 {
      assert Front(ts)[1..] == Front(ts[1..]);
      ResolveOne(d, ts[0]);
      match ts[0]
      case Index(n) => FrontResolves(d.items[n], ts[1..]);
      case Name(k) => FrontResolves(d.members[Fold(k)].doc, ts[1..]);
    } else {
      assert ts == [ts[0]];
    }
  }

  /** An array has no element at its end. */
  lemma EndIsNowhere(d: Doc, ts: seq<Token>, us: seq<Token>)
    requires CjsonPatchRun.Keys(ts) == CjsonPatchRun.Keys(us) && AtEnd(d, us)
    ensures Resolve(d, ts).None?
  {
    hide Locate, Resolve, Digits;
    if Resolve(d, ts).Some? {
      FrontResolves(d, ts);
      assert CjsonPatchRun.Keys(Front(ts)) == CjsonPatchRun.Keys(ts)[..|ts| - 1];
      assert CjsonPatchRun.Keys(Front(us)) == CjsonPatchRun.Keys(us)[..|us| - 1];
      SamePlace(d, Front(ts), Front(us));
      var last := ts[|ts| - 1];
      ResolveOne(Resolve(d, Front(ts)).value, last);
      assert CjsonPatchRun.Keys(ts)[|ts| - 1] == "-";
      AtoiDigits(last.n);
    }
  }

  /** So no patch names a place at which the documents have parts equal up to member order and letter case of names:
      where both have a part, it is a "replace", the parts differ, and they are not both arrays or both objects. */
  lemma NoneForEqualParts(from: Json, to: Json, p: Json, ts: seq<Token>)
    requires WellNamed(from) && WellNamed(to) && p in GeneratePatches(from, to)
    requires PatchPath(p) == PointerText(ts)
    requires Resolve(Meaning(from), ts).Some? && Resolve(Meaning(to), ts).Some?
    ensures Lookup(p, "op") == Some(Str("replace"))
    ensures var x, y := Resolve(Meaning(from), ts).value, Resolve(Meaning(to), ts).value;
      Caseless(x) != Caseless(y) && !(x.List? && y.List?) && !(x.Object? && y.Object?)
  {
    hide Meaning, Caseless, WellNamed, Resolve, PatchJson, Lookup, GeneratePatches, PointerText;
    OnlyForDifferences(from, to);
    var d, e := Meaning(from), Meaning(to);
    var op, w, us :| p == PatchJson(op, "" + PointerText(us), w) && Reason(op, w, d, e, us);
    CjsonPatchRun.PatchFields(op, "" + PointerText(us), w);
    SameKeys(ts, us);
    if AtEnd(d, us) {
      EndIsNowhere(d, ts, us);
    } else if Resolve(d, us).Some? {
      SamePlace(d, ts, us);
    } else {
      SamePlace(e, ts, us);
    }
  }
}
