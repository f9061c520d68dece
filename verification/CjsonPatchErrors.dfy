/** The result codes of cJSONUtils_ApplyPatch: for patches that are no operation at all, and for operations that
    fail. */
module CjsonPatchErrors {
  import opened Wrappers
  import opened CjsonKeys
  import opened CjsonText
  import opened CjsonDoc
  import opened CjsonPointer
  import opened CjsonCompare
  import opened CjsonCompareCodes
  import opened CjsonLinks
  import opened CjsonPatch
  import opened CjsonPatchRfc

  // ---------------------------------------------------------------- patches that are no operation

  const OPERATIONS: set<string> := {"add", "remove", "replace", "move", "copy", "test"}

  predicate Has(patch: Json, field: string) {
    Lookup(patch, field).Some?
  }

  predicate HasText(patch: Json, field: string) {
    Has(patch, field) && Lookup(patch, field).value.Str?
  }

  predicate Is(patch: Json, op: string) {
    Lookup(patch, "op") == Some(Str(op))
  }

  /** One of the six operations with its fields (sections 4.1 to 4.6 of RFC 6902). */
  predicate Whole(patch: Json) {
    && (exists op :: op in OPERATIONS && Is(patch, op))
    && HasText(patch, "path")
    && (Is(patch, "add") || Is(patch, "replace") || Is(patch, "test") ==> Has(patch, "value"))
    && (Is(patch, "move") || Is(patch, "copy") ==> HasText(patch, "from"))
  }

  /** No "op" or no "path". */
  predicate Nameless(patch: Json) {
    !Has(patch, "op") || !Has(patch, "path")
  }

  /** An "op" that is none of the six. */
  predicate Unknown(patch: Json) {
    !Nameless(patch) && HasText(patch, "op") && Lookup(patch, "op").value.s !in OPERATIONS
  }

  predicate Sourceless(patch: Json) {
    !Nameless(patch) && (Is(patch, "move") || Is(patch, "copy")) && !Has(patch, "from")
  }

  /** An "add" without a value, or a "replace" without one that gets as far as looking for it. */
  predicate Valueless(patch: Json) {
    && !Nameless(patch) && !Has(patch, "value")
    && (Is(patch, "add") || (Is(patch, "replace") && HasText(patch, "path") && CanBeCut(patch)))
  }

  /** The path has a slash, and behind the last one no tilde stands alone at the end. */
  predicate CanBeCut(patch: Json)
    requires HasText(patch, "path")
  {
    Split(Lookup(patch, "path").value.s).Some?
  }

  /** The rest of the document once what is at the path is gone. */
  function Rest(d: Doc, path: string): Doc
    requires Split(path).Some?
  {
    match TakenBy(d, path)
    case None => d
    case Some((rest, _)) => rest
  }

  /** A "move" or "copy" that finds nothing to take, to a place that is no text. */
  predicate NothingForNowhere(d: Doc, patch: Json) {
    && !Nameless(patch) && !HasText(patch, "path") && HasText(patch, "from")
    && var from := Lookup(patch, "from").value.s;
       || (Is(patch, "move") && Split(from).Some? && TakenBy(d, from).None?)
       || (Is(patch, "copy") && Find(d, from).None?)
  }

  /** The patch is refused with the code of its defect. */
  ghost predicate Refused(doc: Json, patch: Json, r: Outcome) {
    && (Nameless(patch) <==> r.Return? && r.code == 2)
    && (Unknown(patch) <==> r.Return? && r.code == 3)
    && (Sourceless(patch) <==> r.Return? && r.code == 4)
    && (NothingForNowhere(Meaning(doc), patch) <==> r.Return? && r.code == 5)
    && (Valueless(patch) <==> r.Return? && r.code == 7)
    && (r.Return? ==> r.code in {2, 3, 4, 5, 7})
    && (r.Return? && !(Is(patch, "replace") && Valueless(patch)) ==> r.doc == doc)
    && (Is(patch, "replace") && Valueless(patch) ==>
          r.Return? && WellNamed(r.doc) && Meaning(r.doc) == Rest(Meaning(doc), Lookup(patch, "path").value.s))
  }

  lemma UnnamedRefused(doc: Json, patch: Json)
    requires Nameless(patch) || !HasText(patch, "op") || Unknown(patch)
    ensures Refused(doc, patch, ApplyPatch(doc, patch))
  {
    hide Lookup, Detach, GetPointer, Add, Meaning, WellNamed, Split, TakenBy, Find, ValueAt;
  }

  lemma AddOrTestRefused(doc: Json, patch: Json)
    requires !Whole(patch) && !Nameless(patch) && (Is(patch, "add") || Is(patch, "test"))
    ensures Refused(doc, patch, ApplyPatch(doc, patch))
  {
    hide Lookup, Detach, GetPointer, Add, Meaning, WellNamed, Split, TakenBy, Find, ValueAt;
    assert "add" in OPERATIONS && "test" in OPERATIONS;
  }

  lemma RemoveRefused(doc: Json, patch: Json)
    requires !Whole(patch) && !Nameless(patch) && Is(patch, "remove")
    ensures Refused(doc, patch, ApplyPatch(doc, patch))
  {
    hide Lookup, Detach, GetPointer, Add, Meaning, WellNamed, Split, TakenBy, Find, ValueAt;
    assert "remove" in OPERATIONS;
  }

  lemma ReplaceResult(doc: Json, patch: Json)
    requires !Nameless(patch) && Is(patch, "replace") && !(HasText(patch, "path") && Has(patch, "value"))
    ensures ApplyPatch(doc, patch) ==
      if !HasText(patch, "path") || Detach(doc, Lookup(patch, "path").value.s).None? then Crash
      else Return(7, Detach(doc, Lookup(patch, "path").value.s).value.0)
  {
    hide Lookup, Detach, Add;
  }

  lemma JustReplace(patch: Json)
    requires Is(patch, "replace") && !Nameless(patch)
    ensures !Is(patch, "move") && !Is(patch, "copy") && !Unknown(patch)
    ensures Whole(patch) <==> HasText(patch, "path") && Has(patch, "value")
  {
    hide Lookup;
    assert "replace" in OPERATIONS;
  }

  lemma ReplaceRefused(doc: Json, patch: Json)
    requires WellNamed(doc) && !Whole(patch) && !Nameless(patch) && Is(patch, "replace")
    ensures Refused(doc, patch, ApplyPatch(doc, patch))
  {
    hide Lookup, Detach, Meaning, WellNamed, Split, TakenBy, ApplyPatch, Unknown, Whole;
    JustReplace(patch);
    ReplaceResult(doc, patch);
    if HasText(patch, "path") {
      if CanBeCut(patch) {
        DetachTakes(doc, Lookup(patch, "path").value.s);
      } else {
        NoSplitNoAdd(doc, Lookup(patch, "path").value.s, doc);
      }
    }
  }

  lemma MoveResult(doc: Json, patch: Json)
    requires !Nameless(patch) && Is(patch, "move") && !HasText(patch, "path")
    ensures ApplyPatch(doc, patch) ==
      if !Has(patch, "from") then Return(4, doc)
      else if !HasText(patch, "from") || Detach(doc, Lookup(patch, "from").value.s).None? then Crash
      else
        var r := Detach(doc, Lookup(patch, "from").value.s).value;
        if r.1.None? then Return(5, r.0) else Crash
  {
    hide Lookup, Detach, Add;
  }

  lemma CopyResult(doc: Json, patch: Json)
    requires !Nameless(patch) && Is(patch, "copy") && !HasText(patch, "path")
    ensures ApplyPatch(doc, patch) ==
      if !Has(patch, "from") then Return(4, doc)
      else if !HasText(patch, "from") || GetPointer(doc, Lookup(patch, "from").value.s, 0).Some? then Crash
      else Return(5, doc)
  {
    hide Lookup, GetPointer, Detach, Add;
  }

  lemma SourceResult(doc: Json, patch: Json)
    requires !Nameless(patch) && (Is(patch, "move") || Is(patch, "copy")) && !HasText(patch, "from")
    ensures ApplyPatch(doc, patch) == if Has(patch, "from") then Crash else Return(4, doc)
  {
    hide Lookup, GetPointer, Detach, Add;
  }

  /** The other defects are not those of a "move" or "copy". */
  lemma MoveOrCopy(patch: Json)
    requires !Nameless(patch) && (Is(patch, "move") || Is(patch, "copy"))
    ensures !Unknown(patch) && !Valueless(patch) && !Is(patch, "replace")
    ensures Whole(patch) <==> HasText(patch, "path") && HasText(patch, "from")
    ensures Is(patch, "move") <==> !Is(patch, "copy")
  {
    hide Lookup;
    assert "move" in OPERATIONS && "copy" in OPERATIONS;
  }

  lemma MoveOrCopyRefused(doc: Json, patch: Json)
    requires WellNamed(doc) && !Whole(patch) && !Nameless(patch) && (Is(patch, "move") || Is(patch, "copy"))
    ensures Refused(doc, patch, ApplyPatch(doc, patch))
  {
    hide Lookup, Detach, GetPointer, Meaning, WellNamed, Split, TakenBy, Find, ValueAt, Resolve, ApplyPatch, Is,
      Unknown, Valueless, Whole;
    MoveOrCopy(patch);
    if !HasText(patch, "from") {
      SourceResult(doc, patch);
    } else if Is(patch, "move") {
      MoveResult(doc, patch);
      var from := Lookup(patch, "from").value.s;
      if Split(from).Some? {
        DetachTakes(doc, from);
      } else {
        NoSplitNoAdd(doc, from, doc);
      }
    } else {
      CopyResult(doc, patch);
      var at := NodeFound(doc, Lookup(patch, "from").value.s);
    }
  }

  /** A patch that is no operation fails, with the code of its defect, and leaves the document as it is; only a
      "replace" without a value has removed the old part by then.  In all other cases the program reads a string
      that is not there, or behind the end of one. */
  lemma NoOperationFails(doc: Json, patch: Json)
    requires WellNamed(doc) && !Whole(patch)
    ensures Refused(doc, patch, ApplyPatch(doc, patch))
  {
    hide Lookup, Refused, WellNamed, ApplyPatch, Whole;
    if Nameless(patch) || !HasText(patch, "op") || Unknown(patch) {
      UnnamedRefused(doc, patch);
    } else if Is(patch, "add") || Is(patch, "test") {
      AddOrTestRefused(doc, patch);
    } else if Is(patch, "remove") {
      RemoveRefused(doc, patch);
    } else if Is(patch, "replace") {
      ReplaceRefused(doc, patch);
    } else {
      MoveOrCopyRefused(doc, patch);
    }
  }

  // ---------------------------------------------------------------- operations that fail

  /** The end of "add", "replace", "move" and "copy" in the document d: 9 where the path has no parent, and d stays. */
  ghost predicate Puts(r: Outcome, d: Doc, path: string, x: Doc) {
    if Split(path).None? then r.Crash?
    else
      && r.Return? && WellNamed(r.doc)
      && (Container(d, path).None? ==> r.code == 9 && Meaning(r.doc) == d)
      && (Container(d, path).Some? ==> r.code == 0 && Some(Meaning(r.doc)) == PutBy(d, path, x))
  }

  lemma AddEnds(doc: Json, path: string, value: Json)
    requires WellNamed(doc) && WellNamed(value) && NulFree(path)
    ensures Puts(Add(doc, path, value), Meaning(doc), path, Meaning(value))
  {
    hide Add, Meaning, WellNamed, Split, Find, Resolve, Replace, PutAt;
    if Split(path).Some? {
      SplitNulFree(path);
      AddPuts(doc, path, value);
    } else {
      NoSplitNoAdd(doc, path, value);
    }
  }

  /** What each operation does, whether RFC 6902 would have it do so or not, and with which code it fails: 5 where
      there is nothing to move or copy; a "move" without a parent for what it has taken loses it; a "test" names a
      difference. */
  ghost predicate Does(r: Outcome, d: Doc, o: Operation) {
    match o
    case AddOp(path, value) => Puts(r, d, path, Meaning(value))
    case RemoveOp(path) =>
      if Split(path).None? then r.Crash?
      else r.Return? && r.code == 0 && WellNamed(r.doc) && Meaning(r.doc) == Rest(d, path)
    case ReplaceOp(path, value) =>
      if Split(path).None? then r.Crash? else Puts(r, Rest(d, path), path, Meaning(value))
    case MoveOp(from, path) =>
      if Split(from).None? then r.Crash?
      else if TakenBy(d, from).None? then r.Return? && r.code == 5 && Meaning(r.doc) == d
      else Puts(r, TakenBy(d, from).value.0, path, TakenBy(d, from).value.1)
    case CopyOp(from, path) =>
      if Find(d, from).None? then r.Return? && r.code == 5 && Meaning(r.doc) == d
      else Puts(r, d, path, Resolve(d, Find(d, from).value).value)
    case TestOp(path, value) =>
      if Find(d, path).None? then r.Crash?
      else
        && r.Return? && Meaning(r.doc) == d
        && var x, y := Resolve(d, Find(d, path).value).value, Meaning(value);
           (r.code == 0 <==> Caseless(x) == Caseless(y)) && (r.code != 0 ==> DifferSomewhere(r.code, x, y))
  }

  lemma RemoveDoes(doc: Json, patch: Json, path: string)
    requires WellNamed(doc) && Says(patch, RemoveOp(path))
    ensures Does(ApplyPatch(doc, patch), Meaning(doc), RemoveOp(path))
  {
    hide Detach, Meaning, WellNamed, Split, TakenBy, Lookup, NulFree;
    if Split(path).Some? {
      DetachTakes(doc, path);
    } else {
      NoSplitNoAdd(doc, path, doc);
    }
  }

  lemma ReplaceDoes(doc: Json, patch: Json, path: string, value: Json)
    requires WellNamed(doc) && Says(patch, ReplaceOp(path, value))
    ensures Does(ApplyPatch(doc, patch), Meaning(doc), ReplaceOp(path, value))
  {
    hide Add, Detach, Meaning, WellNamed, Split, TakenBy, Lookup, NulFree, Puts;
    if Split(path).Some? {
      DetachTakes(doc, path);
      AddEnds(Detach(doc, path).value.0, path, value);
    } else {
      NoSplitNoAdd(doc, path, doc);
    }
  }

  lemma MoveDoes(doc: Json, patch: Json, from: string, path: string)
    requires WellNamed(doc) && Says(patch, MoveOp(from, path))
    ensures Does(ApplyPatch(doc, patch), Meaning(doc), MoveOp(from, path))
  {
    hide Add, Detach, Meaning, WellNamed, Split, TakenBy, Lookup, NulFree, Puts;
    if Split(from).Some? {
      DetachTakes(doc, from);
      var r := Detach(doc, from).value;
      if r.1.Some? {
        AddEnds(r.0, path, r.1.value);
      }
    } else {
      NoSplitNoAdd(doc, from, doc);
    }
  }

  lemma CopyDoes(doc: Json, patch: Json, from: string, path: string)
    requires WellNamed(doc) && Says(patch, CopyOp(from, path))
    ensures Does(ApplyPatch(doc, patch), Meaning(doc), CopyOp(from, path))
  {
    hide Add, GetPointer, Meaning, WellNamed, Find, Resolve, Lookup, NulFree, Puts, Leads;
    var at := NodeFound(doc, from);
    if at.Some? {
      AddEnds(doc, path, ValueAt(doc, at.value));
    }
  }

  lemma TestDoes(doc: Json, patch: Json, path: string, value: Json)
    requires WellNamed(doc) && Says(patch, TestOp(path, value))
    ensures Does(ApplyPatch(doc, patch), Meaning(doc), TestOp(path, value))
  {
    hide GetPointer, Meaning, WellNamed, Find, Resolve, Replace, Lookup, NulFree, Caseless, CompareValues, Compared;
    hide Put, Leads, DifferSomewhere;
    var d := Meaning(doc);
    var at := NodeFound(doc, path);
    if at.Some? {
      var v := ValueAt(doc, at.value);
      if CompareValues(v, value) != 0 {
        CompareTells(v, value);
      }
      CompareMeans(v, value);
      ComparedKeeps(v, value);
      PutMeans(doc, at.value, Find(d, path).value, Compared(v, value));
      ReplaceSelf(d, Find(d, path).value);
    }
  }

  lemma {:induction false} PutThere(v: Json, at: Position, w: Json)
    requires IsPosition(v, at)
    ensures IsPosition(Put(v, at, w), at) && ValueAt(Put(v, at, w), at) == w
    decreases v
  {
    if at != [] {
      match v
      case Arr(items) => PutThere(items[at[0]], at[1..], w);
      case Obj(members) => PutThere(members[at[0]].value, at[1..], w);
    }
  }

  /** A test that passes leaves its target with the members of every object sorted, and changes nothing else. */
  lemma TestSorts(doc: Json, patch: Json, path: string, value: Json)
    requires WellNamed(doc) && Says(patch, TestOp(path, value))
    requires ApplyPatch(doc, patch).Return? && ApplyPatch(doc, patch).code == 0
    ensures GetPointer(doc, path, 0).Some?
    ensures var at, r := GetPointer(doc, path, 0).value, ApplyPatch(doc, patch).doc;
      && IsPosition(doc, at) && IsPosition(r, at) && r == Put(doc, at, ValueAt(r, at))
      && SortedThroughout(ValueAt(r, at))
  {
    hide GetPointer, Meaning, WellNamed, Find, Resolve, Lookup, NulFree, CompareValues, Compared, Put, Leads,
      IsPosition, ValueAt, SortedThroughout;
    var at := NodeFound(doc, path);
    var v := ValueAt(doc, at.value);
    EqualSorts(v, value);
    PutThere(doc, at.value, Compared(v, value));
  }

  /** Every operation, on every document and with any texts as pointers. */
  lemma OperationDoes(doc: Json, patch: Json, o: Operation)
    requires WellNamed(doc) && Says(patch, o)
    ensures Does(ApplyPatch(doc, patch), Meaning(doc), o)
  {
    hide Add, Meaning, WellNamed, Lookup, NulFree, Puts;
    match o
    case AddOp(path, value) => AddEnds(doc, path, value);
    case RemoveOp(path) => RemoveDoes(doc, patch, path);
    case ReplaceOp(path, value) => ReplaceDoes(doc, patch, path, value);
    case MoveOp(from, path) => MoveDoes(doc, patch, from, path);
    case CopyOp(from, path) => CopyDoes(doc, patch, from, path);
    case TestOp(path, value) => TestDoes(doc, patch, path, value);
  }

  // ---------------------------------------------------------------- runs

  /** A run stops at the first patch that is refused, with its result, whatever follows. */
  lemma {:induction false} RunStops(doc: Json, patches: seq<Json>, i: nat)
    requires i < |patches|
    requires var before := ApplyPatches(doc, patches[..i]); before.Return? && before.code == 0
    requires var r := ApplyPatch(ApplyPatches(doc, patches[..i]).doc, patches[i]); r.Return? ==> r.code != 0
    ensures ApplyPatches(doc, patches) == ApplyPatch(ApplyPatches(doc, patches[..i]).doc, patches[i])
    decreases i
  {
    hide ApplyPatch;
    if i > 0 {
      assert patches[..i][0] == patches[0] && patches[..i][1..] == patches[1..][..i - 1];
      RunStops(ApplyPatch(doc, patches[0]).doc, patches[1..], i - 1);
    }
  }

  /** So no run gets past a patch that is no operation. */
  lemma NoOperationStopsRun(doc: Json, patches: seq<Json>, i: nat)
    requires i < |patches| && !Whole(patches[i])
    requires var before := ApplyPatches(doc, patches[..i]); before.Return? && before.code == 0 && WellNamed(before.doc)
    ensures Refused(ApplyPatches(doc, patches[..i]).doc, patches[i], ApplyPatches(doc, patches))
  {
    hide ApplyPatch, ApplyPatches, Whole, WellNamed;
    NoOperationFails(ApplyPatches(doc, patches[..i]).doc, patches[i]);
    RunStops(doc, patches, i);
  }
}
