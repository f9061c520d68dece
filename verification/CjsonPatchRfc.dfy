/** RFC 6902 on documents, and exactly when cJSONUtils_ApplyPatch does what it says.  The program tells member
    names apart ignoring case, and so does this reading of the RFC. */
module CjsonPatchRfc {
  import opened Wrappers
  import opened CjsonKeys
  import opened CjsonString
  import opened CjsonText
  import opened CjsonDoc
  import opened CjsonPointer
  import opened CjsonPointerText
  import opened CjsonCompare
  import opened CjsonLinks
  import opened CjsonPatch
  import opened CjsonPatchRun
  import CjsonMerge

  // ---------------------------------------------------------------- RFC 6902, section 4

  /** An operation with the texts of its pointers, which may be any strings. */
  datatype Operation =
    | AddOp(path: string, value: Json)
    | RemoveOp(path: string)
    | ReplaceOp(path: string, value: Json)
    | MoveOp(from: string, path: string)
    | CopyOp(from: string, path: string)
    | TestOp(path: string, value: Json)

  function Eval(d: Doc, ks: seq<string>): Option<Doc> {
    match Locate(d, ks, true)
    case None => None
    case Some(ts) => Resolve(d, ts)
  }

  function AddAt(c: Doc, k: string, x: Doc): Option<Doc> {
    match c
    case Object(m) => Some(Object(m[Fold(k) := Entry(k, x)]))
    case List(items) =>
      var n := ArrayIndex(k);
      if k == "-" then Some(List(items + [x]))
      else if n.Some? && n.value <= |items| then Some(List(items[..n.value] + [x] + items[n.value..]))
      else None
    case Leaf(_) => None
  }

  function RemoveAt(c: Doc, k: string): Option<Doc> {
    match StepBy(c, k, true)
    case None => None
    case Some(Index(n)) => if c.List? && n < |c.items| then Some(List(c.items[..n] + c.items[n + 1..])) else None
    case Some(Name(_)) => if c.Object? then Some(Object(c.members - {Fold(k)})) else None
  }

  /** Section 4.1. */
  function RfcAdd(d: Doc, ks: seq<string>, x: Doc): Option<Doc> {
    if ks == [] then Some(x)
    else match Locate(d, ks[..|ks| - 1], true)
      case None => None
      case Some(ts) =>
        match AddAt(Resolve(d, ts).value, Last(ks), x)
        case None => None
        case Some(c) => Some(Replace(d, ts, c))
  }

  /** Section 4.2; nothing is left without the root. */
  function RfcRemove(d: Doc, ks: seq<string>): Option<Doc> {
    if ks == [] then None
    else match Locate(d, ks[..|ks| - 1], true)
      case None => None
      case Some(ts) =>
        match RemoveAt(Resolve(d, ts).value, Last(ks))
        case None => None
        case Some(c) => Some(Replace(d, ts, c))
  }

  predicate ProperPrefix(fs: seq<string>, ks: seq<string>) {
    |fs| < |ks| && forall i :: 0 <= i < |fs| ==> Fold(fs[i]) == Fold(ks[i])
  }

  // The same on texts; what is no pointer is an error.

  function EvalText(d: Doc, s: string): Option<Doc> {
    match Tokens(s)
    case None => None
    case Some(ks) => Eval(d, ks)
  }

  function AddText(d: Doc, s: string, x: Doc): Option<Doc> {
    match Tokens(s)
    case None => None
    case Some(ks) => RfcAdd(d, ks, x)
  }

  function RemoveText(d: Doc, s: string): Option<Doc> {
    match Tokens(s)
    case None => None
    case Some(ks) => RfcRemove(d, ks)
  }

  function Then(r: Option<Doc>, s: string, x: Doc): Option<Doc> {
    if r.Some? then AddText(r.value, s, x) else None
  }

  /** The first pointer leads to something that contains what the second leads to. */
  predicate Above(f: string, s: string) {
    match (Tokens(f), Tokens(s))
    case (Some(fs), Some(ks)) => ProperPrefix(fs, ks)
    case _ => false
  }

  /** One operation; None is an error.  Replacing and moving are removing, then adding (sections 4.3 and 4.4). */
  function RfcStep(d: Doc, o: Operation): Option<Doc> {
    match o
    case AddOp(path, value) => AddText(d, path, Meaning(value))
    case RemoveOp(path) => RemoveText(d, path)
    case ReplaceOp(path, value) =>
      if EvalText(d, path).None? then None
      else if path == "" then Some(Meaning(value))
      else Then(RemoveText(d, path), path, Meaning(value))
    case MoveOp(from, path) =>
      if Above(from, path) || EvalText(d, from).None? then None
      else if from == "" then (if path == "" then Some(d) else None)
      else Then(RemoveText(d, from), path, EvalText(d, from).value)
    case CopyOp(from, path) => if EvalText(d, from).None? then None else AddText(d, path, EvalText(d, from).value)
    case TestOp(path, value) => if EvalText(d, path) == Some(Meaning(value)) then Some(d) else None
  }

  /** Section 5: the first error ends it. */
  function RfcRun(d: Doc, os: seq<Operation>): Option<Doc>
    decreases |os|
  {
    if os == [] then Some(d)
    else match RfcStep(d, os[0])
      case None => None
      case Some(e) => RfcRun(e, os[1..])
  }

  // ---------------------------------------------------------------- when the program agrees

  /** The program returns 0 and leaves the document the RFC says, or the RFC sees an error and the program returns
      one.  A crash never agrees. */
  ghost predicate Agrees(o: Outcome, r: Option<Doc>) {
    match r
    case Some(d) => Becomes(o, d)
    case None => o.Return? && o.code != 0
  }

  /** A place to add at: a member, "-", or an index in the array or right behind it. */
  predicate HasPlace(c: Doc, k: string) {
    match c
    case Object(_) => true
    case List(items) => k == "-" || (ArrayIndex(k).Some? && ArrayIndex(k).value <= |items|)
    case Leaf(_) => false
  }

  /** A pointer, not the root's, whose parent exists by the RFC's rules and has the place. */
  predicate PlaceFits(d: Doc, s: string) {
    match Tokens(s)
    case None => false
    case Some(ks) =>
      ks != [] && match Locate(d, ks[..|ks| - 1], true)
        case None => false
        case Some(ts) => HasPlace(Resolve(d, ts).value, Last(ks))
  }

  /** The text can be cut at a slash, and what is in front of it leads nowhere. */
  predicate NoParent(d: Doc, s: string) {
    Split(s).Some? && Container(d, s).None?
  }

  predicate AddFits(d: Doc, s: string) {
    PlaceFits(d, s) || NoParent(d, s)
  }

  predicate Fits(d: Doc, o: Operation) {
    match o
    case AddOp(path, _) => AddFits(d, path)
    case RemoveOp(path) => path != "" && EvalText(d, path).Some?
    case ReplaceOp(path, _) => (path != "" && EvalText(d, path).Some?) || NoParent(d, path)
    case MoveOp(from, path) =>
      && Split(from).Some?
      && (TakenBy(d, from).Some? ==>
            var r := TakenBy(d, from).value.0;
            if EvalText(d, from).Some? && !Above(from, path) then AddFits(r, path) else NoParent(r, path))
    case CopyOp(from, path) =>
      if Find(d, from).None? then true
      else if EvalText(d, from).Some? then AddFits(d, path)
      else NoParent(d, path)
    case TestOp(path, value) =>
      var ts := Find(d, path);
      && ts.Some?
      && (Caseless(Resolve(d, ts.value).value) == Caseless(Meaning(value)) ==>
            EvalText(d, path) == Some(Meaning(value)))
  }

  predicate FitsAll(d: Doc, os: seq<Operation>)
    decreases |os|
  {
    os == [] ||
    (&& Fits(d, os[0])
     && match RfcStep(d, os[0])
        case None => true
        case Some(e) => FitsAll(e, os[1..]))
  }

  /** The JSON text of a patch spells the operation. */
  ghost predicate Says(patch: Json, o: Operation) {
    && Lookup(patch, "path") == Some(Str(o.path)) && NulFree(o.path)
    && match o
       case AddOp(_, value) =>
         Lookup(patch, "op") == Some(Str("add")) && Lookup(patch, "value") == Some(value) && WellNamed(value)
       case RemoveOp(_) => Lookup(patch, "op") == Some(Str("remove"))
       case ReplaceOp(_, value) =>
         Lookup(patch, "op") == Some(Str("replace")) && Lookup(patch, "value") == Some(value) && WellNamed(value)
       case MoveOp(from, _) =>
         Lookup(patch, "op") == Some(Str("move")) && Lookup(patch, "from") == Some(Str(from))
       case CopyOp(from, _) =>
         Lookup(patch, "op") == Some(Str("copy")) && Lookup(patch, "from") == Some(Str(from))
       case TestOp(_, value) =>
         Lookup(patch, "op") == Some(Str("test")) && Lookup(patch, "value") == Some(value) && WellNamed(value)
  }

  // ---------------------------------------------------------------- single steps

  lemma AtoiLoose(k: string)
    requires AllDigits(k)
    ensures Atoi(k) == Value(k) && k != "-"
  {
    hide Value;
    assert k[0..|k|] == k;
    ValueRead(k, k, 0);
    assert k != [] ==> IsDigit(k[0]);
  }

  /** At a container both add the same, if the RFC adds at all. */
  lemma AddAtPuts(c: Doc, k: string, x: Doc)
    ensures AddAt(c, k, x).Some? <==> HasPlace(c, k)
    ensures AddAt(c, k, x).Some? ==> AddAt(c, k, x).value == PutAt(c, k, x)
  {
    hide Value, Atoi, Fold;
    if c.List? && AllDigits(k) {
      AtoiLoose(k);
      if Value(k) == |c.items| {
        assert c.items[..Value(k)] + [x] + c.items[Value(k)..] == c.items + [x];
      }
    }
  }

  /** What the RFC removes from a container the program takes out. */
  lemma RemoveAtTakes(c: Doc, k: string)
    ensures var t := StepBy(c, k, true);
      && (RemoveAt(c, k).Some? <==> t.Some?)
      && (t.Some? ==> Resolve(c, [t.value]).Some?
                      && TakenAt(c, k) == Some((RemoveAt(c, k).value, Resolve(c, [t.value]).value)))
  {
    hide Value, Atoi, Fold;
    if StepBy(c, k, true).Some? {
      ResolveOne(c, StepBy(c, k, true).value);
      if c.List? {
        AtoiLoose(k);
      }
    }
  }

  lemma FrontAndLast(ks: seq<string>)
    requires ks != []
    ensures ks == ks[..|ks| - 1] + [Last(ks)]
  {
  }

  /** What is there by the RFC's rules the program takes, and leaves what the RFC leaves. */
  lemma StrictTaken(d: Doc, ks: seq<string>)
    requires ks != []
    ensures RfcRemove(d, ks).Some? <==> Eval(d, ks).Some?
    ensures Eval(d, ks).Some? ==>
      Parent(d, ks).Some? && Taken(d, ks) == Some((RfcRemove(d, ks).value, Eval(d, ks).value))
  {
    hide Locate, Resolve, Replace, StepBy, RemoveAt, TakenAt;
    var front := ks[..|ks| - 1];
    FrontAndLast(ks);
    LocateMore(d, front, Last(ks), true);
    StrictIsLoose(d, front);
    var ts := Locate(d, front, true);
    if ts.Some? {
      var c := Resolve(d, ts.value).value;
      RemoveAtTakes(c, Last(ks));
      var t := StepBy(c, Last(ks), true);
      if t.Some? {
        ReplaceBelow(d, ts.value, t.value, c);
      }
    }
  }

  // ---------------------------------------------------------------- texts and tokens

  lemma RootPointer(s: string)
    ensures Tokens(s) == Some([]) <==> s == []
    ensures Split([]) == None
  {
  }

  /** What the program makes of the text of a pointer. */
  lemma PointerReads(d: Doc, s: string)
    requires Tokens(s).Some?
    ensures var ks := Tokens(s).value;
      && s == PathText(ks) && Find(d, s) == Locate(d, ks, false) && (ks == [] <==> s == [])
      && (ks == [] ==> Split(s).None?)
      && (ks != [] ==> Split(s) == Some((PathText(ks[..|ks| - 1]), Last(ks)))
                       && Container(d, s) == Parent(d, ks) && TakenBy(d, s) == Taken(d, ks)
                       && forall x :: PutBy(d, s, x) == PutIn(d, ks, x))
  {
    hide Find, PathText, Locate, Tokens;
    var ks := Tokens(s).value;
    PointerTexts(s, ks);
    FindPath(d, ks);
    RootPointer(s);
    if ks != [] {
      PathSplits(d, ks);
    }
  }

  lemma {:induction false} DecodedNulFree(s: string)
    requires NulFree(s) && Decoded(s).Some?
    ensures NulFree(Decoded(s).value)
    decreases |s|
  {
    if s != [] {
      DecodedNulFree(s[if s[0] == '~' then 2 else 1..]);
    }
  }

  lemma SplitNulFree(s: string)
    requires NulFree(s) && Split(s).Some?
    ensures NulFree(Split(s).value.1)
  {
    DecodedNulFree(s[LastSlash(s).value + 1..]);
  }

  // ---------------------------------------------------------------- adding and taking

  /** On documents: where the RFC adds, and that the program then does the same. */
  lemma AddTextFits(d: Doc, s: string, x: Doc)
    ensures PlaceFits(d, s) ==> Split(s).Some? && AddText(d, s, x).Some? && PutBy(d, s, x) == AddText(d, s, x)
    ensures !PlaceFits(d, s) && s != "" ==> AddText(d, s, x) == None
  {
    hide PathText, Locate, Resolve, Replace, AddAt, PutAt, HasPlace, Tokens, Find, Split;
    if Tokens(s).Some? {
      var ks := Tokens(s).value;
      PointerReads(d, s);
      if ks != [] {
        StrictIsLoose(d, ks[..|ks| - 1]);
        if Parent(d, ks).Some? {
          AddAtPuts(Resolve(d, Parent(d, ks).value).value, Last(ks), x);
        }
      }
    }
  }

  lemma AddExactly(doc: Json, s: string, value: Json)
    requires WellNamed(doc) && WellNamed(value) && NulFree(s)
    ensures Agrees(Add(doc, s, value), AddText(Meaning(doc), s, Meaning(value))) <==> AddFits(Meaning(doc), s)
  {
    hide Meaning, WellNamed, NulFree, Split, PlaceFits, AddText, Add, Container;
    AddTextFits(Meaning(doc), s, Meaning(value));
    if Split(s).Some? {
      SlashInSplit(s);
      SplitNulFree(s);
      AddPuts(doc, s, value);
      PutsExactly(Meaning(doc), s, Meaning(value));
    } else {
      NoSplitNoAdd(doc, s, value);
    }
  }

  lemma PutsExactly(d: Doc, s: string, x: Doc)
    requires Split(s).Some?
    ensures PutBy(d, s, x).Some? <==> Container(d, s).Some?
  {
    hide Split, Find;
  }

  /** Without a slash to cut at, the program follows a null pointer; with a lone tilde behind it, it reads on behind
      the text. */
  lemma NoSplitNoAdd(doc: Json, s: string, value: Json)
    requires Split(s).None?
    ensures Add(doc, s, value) == Crash && Detach(doc, s) == None
  {
  }

  /** Where the RFC sees an error, the program sees one only if there is no parent. */
  lemma AddRefuses(doc: Json, s: string, value: Json)
    requires WellNamed(doc) && WellNamed(value) && NulFree(s)
    ensures Agrees(Add(doc, s, value), None) <==> NoParent(Meaning(doc), s)
  {
    hide Add, Locate, Resolve, Replace, Meaning, WellNamed, NulFree, PutAt, Find, Split;
    if Split(s).Some? {
      SplitNulFree(s);
      AddPuts(doc, s, value);
    } else {
      NoSplitNoAdd(doc, s, value);
    }
  }

  /** Changing the part a pointer leads to does not change where it leads. */
  lemma {:induction false} LocateReplace(d: Doc, ks: seq<string>, x: Doc, strict: bool)
    requires Locate(d, ks, strict).Some?
    ensures var ts := Locate(d, ks, strict).value;
      Locate(Replace(d, ts, x), ks, strict) == Some(ts) && Resolve(Replace(d, ts, x), ts) == Some(x)
    decreases |ks|
  {
    hide Fold, ArrayIndex, LooseIndex;
    var ts := Locate(d, ks, strict).value;
    ResolveReplace(d, ts, x);
    if ks != [] {
      var t := StepBy(d, ks[0], strict).value;
      StepResolves(d, ks[0], strict);
      ResolveOne(d, t);
      var e := Resolve(d, [t]).value;
      var rest := Locate(e, ks[1..], strict).value;
      assert ts == [t] + rest && ts[1..] == rest;
      LocateReplace(e, ks[1..], x, strict);
      ResolveOne(Replace(d, ts, x), t);
    }
  }

  /** Removed, the place is there to add at. */
  lemma RemovedLeavesPlace(d: Doc, ks: seq<string>, s: string)
    requires ks != [] && Tokens(s) == Some(ks) && Eval(d, ks).Some?
    ensures RfcRemove(d, ks).Some? && PlaceFits(RfcRemove(d, ks).value, s)
  {
    hide Locate, Resolve, Replace, Fold, Value, Tokens;
    var front := ks[..|ks| - 1];
    StrictTaken(d, ks);
    var ts := Locate(d, front, true).value;
    var c := RemoveAt(Resolve(d, ts).value, Last(ks)).value;
    LocateReplace(d, front, c, true);
  }

  /** Taking something out of a container, the container stays. */
  lemma TakenLeavesParent(d: Doc, s: string)
    requires Split(s).Some? && TakenBy(d, s).Some?
    ensures Container(TakenBy(d, s).value.0, s).Some?
  {
    hide Locate, Resolve, Replace, TakenAt, Tokens, Split;
    var front, k := Split(s).value.0, Split(s).value.1;
    var c := TakenAt(Resolve(d, Container(d, s).value).value, k).value.0;
    if front != [] && front[0] == '/' {
      LocateReplace(d, Tokens(front).value, c, false);
    }
  }

  /** What the RFC finds at a pointer, not the root's, the program takes out. */
  lemma FoundIsTaken(d: Doc, s: string)
    ensures RemoveText(d, s).Some? <==> s != [] && EvalText(d, s).Some?
    ensures RemoveText(d, s).Some? ==>
      Split(s).Some? && TakenBy(d, s) == Some((RemoveText(d, s).value, EvalText(d, s).value))
  {
    hide Locate, Resolve, Replace, TakenBy, Taken, Split, Tokens, Eval;
    if Tokens(s).Some? {
      PointerReads(d, s);
      if Tokens(s).value != [] {
        StrictTaken(d, Tokens(s).value);
      }
    }
  }

  // ---------------------------------------------------------------- the operations

  lemma RemoveExactly(doc: Json, path: string)
    requires WellNamed(doc)
    ensures var r := Detach(doc, path);
      Agrees(if r.Some? then Return(0, r.value.0) else Crash, RemoveText(Meaning(doc), path))
      <==> path != "" && EvalText(Meaning(doc), path).Some?
  {
    hide Detach, Meaning, WellNamed, RemoveText, EvalText, TakenBy, Split;
    FoundIsTaken(Meaning(doc), path);
    if Split(path).Some? {
      DetachTakes(doc, path);
    } else {
      NoSplitNoAdd(doc, path, doc);
    }
  }

  lemma ReplaceExactly(doc: Json, patch: Json, path: string, value: Json)
    requires WellNamed(doc) && Says(patch, ReplaceOp(path, value))
    ensures Agrees(ApplyPatch(doc, patch), RfcStep(Meaning(doc), ReplaceOp(path, value)))
       <==> Fits(Meaning(doc), ReplaceOp(path, value))
  {
    hide Add, Detach, Meaning, WellNamed, RemoveText, AddText, EvalText, TakenBy, Container, AddFits, Lookup, NulFree,
      Split;
    var d := Meaning(doc);
    FoundIsTaken(d, path);
    if Split(path).None? {
      NoSplitNoAdd(doc, path, value);
      ReplaceAtRoot(d, path);
    } else {
      DetachTakes(doc, path);
      SlashInSplit(path);
      var rest := Detach(doc, path).value.0;
      if EvalText(d, path).Some? {
        AddExactly(rest, path, value);
        PlaceStays(d, path);
      } else {
        AddRefuses(rest, path, value);
        TakenKeepsParent(d, path);
      }
    }
  }

  lemma SlashInSplit(s: string)
    requires Split(s).Some?
    ensures s != []
  {
  }

  /** Only the root's pointer has no slash. */
  lemma ReplaceAtRoot(d: Doc, s: string)
    requires Split(s).None?
    ensures EvalText(d, s).Some? ==> s == []
    ensures !NoParent(d, s)
  {
    hide Split, Tokens, Eval;
    if Tokens(s).Some? {
      PointerReads(d, s);
    }
  }

  lemma PlaceStays(d: Doc, s: string)
    requires s != [] && EvalText(d, s).Some?
    ensures RemoveText(d, s).Some? && AddFits(RemoveText(d, s).value, s)
  {
    hide Tokens, PlaceFits, Eval, RfcRemove, NoParent;
    PointerReads(d, s);
    RemovedLeavesPlace(d, Tokens(s).value, s);
  }

  lemma TakenKeepsParent(d: Doc, s: string)
    requires Split(s).Some?
    ensures TakenBy(d, s).Some? ==> !NoParent(d, s) && !NoParent(TakenBy(d, s).value.0, s)
  {
    hide Find, Split, TakenAt, Resolve, Replace;
    if TakenBy(d, s).Some? {
      TakenLeavesParent(d, s);
    }
  }

  lemma MoveExactly(doc: Json, patch: Json, from: string, path: string)
    requires WellNamed(doc) && Says(patch, MoveOp(from, path))
    ensures Agrees(ApplyPatch(doc, patch), RfcStep(Meaning(doc), MoveOp(from, path)))
       <==> Fits(Meaning(doc), MoveOp(from, path))
  {
    hide Add, Detach, Meaning, WellNamed, RemoveText, AddText, EvalText, TakenBy, AddFits, NoParent, Lookup, NulFree,
      Split, Above;
    var d := Meaning(doc);
    FoundIsTaken(d, from);
    if Split(from).None? {
      NoSplitNoAdd(doc, from, doc);
    } else {
      SlashInSplit(from);
      DetachTakes(doc, from);
      var r := Detach(doc, from).value;
      if r.1.Some? {
        AddExactly(r.0, path, r.1.value);
        AddRefuses(r.0, path, r.1.value);
      }
    }
  }

  lemma CopyExactly(doc: Json, patch: Json, from: string, path: string)
    requires WellNamed(doc) && Says(patch, CopyOp(from, path))
    ensures Agrees(ApplyPatch(doc, patch), RfcStep(Meaning(doc), CopyOp(from, path)))
       <==> Fits(Meaning(doc), CopyOp(from, path))
  {
    hide Add, GetPointer, Meaning, WellNamed, AddText, Find, Resolve, AddFits, NoParent, Lookup, NulFree, EvalText,
      Leads;
    var at := NodeFound(doc, from);
    StrictFound(Meaning(doc), from);
    if at.Some? {
      AddExactly(doc, path, ValueAt(doc, at.value));
      AddRefuses(doc, path, ValueAt(doc, at.value));
    }
  }

  /** What the RFC finds, the program finds. */
  lemma StrictFound(d: Doc, s: string)
    ensures EvalText(d, s).Some? ==> Find(d, s).Some? && EvalText(d, s) == Resolve(d, Find(d, s).value)
  {
    hide Tokens, Find, Locate, Resolve;
    if Tokens(s).Some? {
      PointerReads(d, s);
      StrictIsLoose(d, Tokens(s).value);
    }
  }

  lemma TestExactly(doc: Json, patch: Json, path: string, value: Json)
    requires WellNamed(doc) && Says(patch, TestOp(path, value))
    ensures Agrees(ApplyPatch(doc, patch), RfcStep(Meaning(doc), TestOp(path, value)))
       <==> Fits(Meaning(doc), TestOp(path, value))
  {
    hide GetPointer, Meaning, WellNamed, Find, Resolve, Replace, Lookup, NulFree, Caseless, CompareValues, Compared;
    hide Put, Leads, EvalText;
    var d := Meaning(doc);
    var at := NodeFound(doc, path);
    StrictFound(d, path);
    if at.Some? {
      var v := ValueAt(doc, at.value);
      CompareMeans(v, value);
      ComparedKeeps(v, value);
      PutMeans(doc, at.value, Find(d, path).value, Compared(v, value));
      ReplaceSelf(d, Find(d, path).value);
    }
  }

  /** RFC 6902 section 4: for every document, operation and texts of its pointers, ApplyPatch does what the RFC says
      exactly under that condition. */
  lemma StepExactly(doc: Json, patch: Json, o: Operation)
    requires WellNamed(doc) && Says(patch, o)
    ensures Agrees(ApplyPatch(doc, patch), RfcStep(Meaning(doc), o)) <==> Fits(Meaning(doc), o)
  {
    hide Add, Detach, Meaning, WellNamed, RemoveText, AddText, EvalText, AddFits, Lookup, NulFree, Agrees;
    match o
    case AddOp(path, value) => AddExactly(doc, path, value);
    case RemoveOp(path) => RemoveExactly(doc, path);
    case ReplaceOp(path, value) => ReplaceExactly(doc, patch, path, value);
    case MoveOp(from, path) => MoveExactly(doc, patch, from, path);
    case CopyOp(from, path) => CopyExactly(doc, patch, from, path);
    case TestOp(path, value) => TestExactly(doc, patch, path, value);
  }

  lemma {:induction false} ResolvedNamedIn(d: Doc, ts: seq<Token>, names: iset<string>)
    requires CjsonMerge.DocNamedIn(d, names) && Resolve(d, ts).Some?
    ensures CjsonMerge.DocNamedIn(Resolve(d, ts).value, names)
    decreases |ts|
  {
    hide Fold;
    if ts != [] {
      match ts[0]
      case Index(n) => ResolvedNamedIn(d.items[n], ts[1..], names);
      case Name(k) => ResolvedNamedIn(d.members[Fold(k)].doc, ts[1..], names);
    }
  }

  /** With one spelling for each name, a test agrees with section 4.6 exactly if the program finds a target, and
      either the RFC finds it too or it differs from the value. */
  lemma TestNamedExactly(doc: Json, patch: Json, path: string, value: Json, names: iset<string>)
    requires CjsonMerge.OneSpelling(names) && CjsonMerge.NamedIn(doc, names) && CjsonMerge.NamedIn(value, names)
    requires Says(patch, TestOp(path, value))
    ensures var d := Meaning(doc); var ts := Find(d, path);
      Agrees(ApplyPatch(doc, patch), RfcStep(d, TestOp(path, value)))
      <==> ts.Some? && (EvalText(d, path).Some? || Resolve(d, ts.value).value != Meaning(value))
  {
    hide ApplyPatch, RfcStep, Agrees, Meaning, Find, Resolve, EvalText, Caseless, Says;
    hide CjsonMerge.OneSpelling, CjsonMerge.DocNamedIn;
    var d := Meaning(doc);
    TestExactly(doc, patch, path, value);
    StrictFound(d, path);
    CjsonMerge.MeaningNamedIn(doc, names);
    CjsonMerge.MeaningNamedIn(value, names);
    if Find(d, path).Some? {
      ResolvedNamedIn(d, Find(d, path).value, names);
      CjsonMerge.CaselessExactly(Resolve(d, Find(d, path).value).value, Meaning(value), names);
    }
  }

  // ---------------------------------------------------------------- whole patch documents

  /** The two values that an operation test compares. */
  function Tested(doc: Json, patch: Json): Option<(Json, Json)> {
    match (Lookup(patch, "op"), Lookup(patch, "path"), Lookup(patch, "value"))
    case (Some(Str(op)), Some(Str(path)), Some(value)) =>
      if op == "test" && GetPointer(doc, path, 0).Some? then
        Some((ValueAt(doc, GetPointer(doc, path, 0).value), value))
      else None
    case _ => None
  }

  /** Every test that passes, with operations behind it, has a target in which the first name of each object is
      strictly below its other names. */
  predicate TestsCalm(doc: Json, patches: seq<Json>)
    decreases |patches|
  {
    |patches| < 2 ||
    match ApplyPatch(doc, patches[0])
    case Crash => true
    case Return(code, next) =>
      var t := Tested(doc, patches[0]);
      code == 0 ==> (t.Some? ==> Calm(t.value.0)) && TestsCalm(next, patches[1..])
  }

  /** No test that passes, with operations behind it, leaves a list with a stale prev. */
  predicate LinksStay(doc: Json, patches: seq<Json>)
    decreases |patches|
  {
    |patches| < 2 ||
    match ApplyPatch(doc, patches[0])
    case Crash => true
    case Return(code, next) =>
      var t := Tested(doc, patches[0]);
      code == 0 ==> (t.Some? ==> LinksKept(t.value.0, t.value.1)) && LinksStay(next, patches[1..])
  }

  /** A passing test leaves its target well linked exactly if the target is calm. */
  lemma TestedKept(doc: Json, patch: Json)
    requires WellNamed(doc) && Tested(doc, patch).Some?
    requires ApplyPatch(doc, patch).Return? && ApplyPatch(doc, patch).code == 0
    ensures var t := Tested(doc, patch).value; LinksKept(t.0, t.1) <==> Calm(t.0)
  {
    hide GetPointer, WellNamed, Lookup, CompareValues, Compared, LinksKept, Calm, Put, Find, Leads, Resolve;
    var at := NodeFound(doc, Lookup(patch, "path").value.s);
    var t := Tested(doc, patch).value;
    LinksKeptExactly(t.0, t.1);
  }

  /** Section 5: a whole patch document whose operations fit one after the other is applied as the RFC says.  The
      lists stay well linked, so that no operation can meet a stale prev, exactly if the tests have calm targets. */
  lemma {:induction false} RunAgrees(doc: Json, patches: seq<Json>, os: seq<Operation>)
    requires WellNamed(doc) && |patches| == |os| && forall i :: 0 <= i < |os| ==> Says(patches[i], os[i])
    requires FitsAll(Meaning(doc), os)
    ensures Agrees(ApplyPatches(doc, patches), RfcRun(Meaning(doc), os))
    ensures LinksStay(doc, patches) <==> TestsCalm(doc, patches)
    decreases |os|
  {
    hide ApplyPatch, Meaning, WellNamed, Fits, RfcStep, Says, Tested, LinksKept, Calm;
    if os != [] {
      StepExactly(doc, patches[0], os[0]);
      var r := ApplyPatch(doc, patches[0]);
      if RfcStep(Meaning(doc), os[0]).Some? {
        RunAgrees(r.doc, patches[1..], os[1..]);
        if Tested(doc, patches[0]).Some? {
          TestedKept(doc, patches[0]);
        }
      }
    }
  }

  // ---------------------------------------------------------------- what adding and removing are

  /** Added is there. */
  lemma AddedIsThere(d: Doc, ks: seq<string>, x: Doc)
    requires RfcAdd(d, ks, x).Some? && (ks != [] ==> Last(ks) != "-")
    ensures Eval(RfcAdd(d, ks, x).value, ks) == Some(x)
  {
    hide Locate, Resolve, Replace, Fold, Value;
    if ks == [] {
      LocateNothing(x, true);
    } else {
      var front, k := ks[..|ks| - 1], Last(ks);
      FrontAndLast(ks);
      var ts := Locate(d, front, true).value;
      var c := AddAt(Resolve(d, ts).value, k, x).value;
      LocateReplace(d, front, c, true);
      var e := Replace(d, ts, c);
      LocateMore(e, front, k, true);
      var t := StepBy(c, k, true).value;
      ResolveOne(c, t);
      ReplaceBelow(e, ts, t, c);
    }
  }

  /** Removing undoes adding what was not there, and an array's elements are only moved apart. */
  lemma RemoveUndoesAdd(d: Doc, ks: seq<string>, x: Doc)
    requires ks != [] && Last(ks) != "-" && RfcAdd(d, ks, x).Some?
    requires var c := Resolve(d, Locate(d, ks[..|ks| - 1], true).value).value; c.List? || Eval(d, ks).None?
    ensures RfcRemove(RfcAdd(d, ks, x).value, ks) == Some(d)
  {
    hide Locate, Resolve, Replace, Fold, Value;
    var front, k := ks[..|ks| - 1], Last(ks);
    FrontAndLast(ks);
    var ts := Locate(d, front, true).value;
    var c := Resolve(d, ts).value;
    var a := AddAt(c, k, x).value;
    LocateReplace(d, front, a, true);
    LocateMore(d, front, k, true);
    AddedGoes(c, k, x);
    if c.Object? && Fold(k) in c.members {
      ResolveOne(c, Name(k));
      ReplaceBelow(d, ts, Name(k), c);
    }
    ReplaceTwice(d, ts, a, c);
    ReplaceSelf(d, ts);
  }

  lemma AddedGoes(c: Doc, k: string, x: Doc)
    requires AddAt(c, k, x).Some? && k != "-" && (c.Object? ==> Fold(k) !in c.members)
    ensures RemoveAt(AddAt(c, k, x).value, k) == Some(c)
  {
    hide Fold, Value;
    var a := AddAt(c, k, x).value;
    if c.List? {
      var n := ArrayIndex(k).value;
      assert a.items[..n] + a.items[n + 1..] == c.items;
    } else {
      assert a.members - {Fold(k)} == c.members;
    }
  }
}
