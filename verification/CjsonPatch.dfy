/** JSON Patch as cJSON_Utils applies it, and what its steps do to a document. */
module CjsonPatch {
  import opened Wrappers
  import opened CjsonKeys
  import opened CjsonString
  import opened CjsonText
  import opened CjsonDoc
  import opened CjsonPointer
  import opened CjsonPointerText
  import opened CjsonCompare

  // ---------------------------------------------------------------- tokens and meanings

  /** The part of a document that tokens lead to. */
  function Resolve(d: Doc, ts: seq<Token>): Option<Doc>
    decreases |ts|
  {
    if ts == [] then Some(d)
    else match ts[0]
      case Index(n) => if d.List? && n < |d.items| then Resolve(d.items[n], ts[1..]) else None
      case Name(k) =>
        if d.Object? && Fold(k) in d.members then Resolve(d.members[Fold(k)].doc, ts[1..]) else None
  }

  /** The document with that part replaced. */
  function Replace(d: Doc, ts: seq<Token>, x: Doc): Doc
    decreases |ts|
  {
    if ts == [] then x
    else match ts[0]
      case Index(n) =>
        if d.List? && n < |d.items| then List(d.items[n := Replace(d.items[n], ts[1..], x)]) else d
      case Name(k) =>
        if d.Object? && Fold(k) in d.members then
          var e := d.members[Fold(k)];
          Object(d.members[Fold(k) := Entry(e.name, Replace(e.doc, ts[1..], x))])
        else d
  }

  lemma {:induction false} ResolveReplace(d: Doc, ts: seq<Token>, x: Doc)
    requires Resolve(d, ts).Some?
    ensures Resolve(Replace(d, ts, x), ts) == Some(x)
    decreases |ts|
  {
    hide Fold;
    if ts != [] {
      match ts[0]
      case Index(n) => ResolveReplace(d.items[n], ts[1..], x);
      case Name(k) => ResolveReplace(d.members[Fold(k)].doc, ts[1..], x);
    }
  }

  lemma {:induction false} ReplaceSelf(d: Doc, ts: seq<Token>)
    requires Resolve(d, ts).Some?
    ensures Replace(d, ts, Resolve(d, ts).value) == d
    decreases |ts|
  {
    hide Fold;
    if ts != [] {
      match ts[0]
      case Index(n) => ReplaceSelf(d.items[n], ts[1..]);
      case Name(k) => ReplaceSelf(d.members[Fold(k)].doc, ts[1..]);
    }
  }

  lemma {:induction false} ReplaceTwice(d: Doc, ts: seq<Token>, x: Doc, y: Doc)
    requires Resolve(d, ts).Some?
    ensures Replace(Replace(d, ts, x), ts, y) == Replace(d, ts, y)
    decreases |ts|
  {
    hide Fold;
    if ts != [] {
      match ts[0]
      case Index(n) => ReplaceTwice(d.items[n], ts[1..], x, y);
      case Name(k) => ReplaceTwice(d.members[Fold(k)].doc, ts[1..], x, y);
    }
  }

  lemma {:induction false} ReplaceBelow(d: Doc, ts: seq<Token>, t: Token, y: Doc)
    requires Resolve(d, ts).Some?
    ensures Resolve(d, ts + [t]) == Resolve(Resolve(d, ts).value, [t])
    ensures Replace(d, ts + [t], y) == Replace(d, ts, Replace(Resolve(d, ts).value, [t], y))
    decreases |ts|
  {
    hide Fold;
    if ts == [] {
      assert ts + [t] == [t];
    } else {
      assert (ts + [t])[1..] == ts[1..] + [t];
      match ts[0]
      case Index(n) => ReplaceBelow(d.items[n], ts[1..], t, y);
      case Name(k) => ReplaceBelow(d.members[Fold(k)].doc, ts[1..], t, y);
    }
  }

  // ---------------------------------------------------------------- tokens and positions

  /** The value with the node at a position replaced. */
  function Put(v: Json, at: Position, w: Json): Json
    requires IsPosition(v, at)
    decreases v
  {
    if at == [] then w
    else match v
      case Arr(items) => Arr(items[at[0] := Put(items[at[0]], at[1..], w)])
      case Obj(members) =>
        var m := members[at[0]];
        Obj(members[at[0] := Member(m.key, Put(m.value, at[1..], w))])
  }

  /** The tokens lead along the position. */
  predicate Leads(v: Json, at: Position, ts: seq<Token>)
    requires IsPosition(v, at)
    decreases v
  {
    && |ts| == |at|
    && (at != [] ==>
          match v
          case Arr(items) => ts[0] == Index(at[0]) && Leads(items[at[0]], at[1..], ts[1..])
          case Obj(members) =>
            && ts[0].Name? && Fold(ts[0].name) == Fold(members[at[0]].key)
            && Leads(members[at[0]].value, at[1..], ts[1..]))
  }

  // ---------------------------------------------------------------- reference tokens

  predicate AllDigits(k: string) {
    forall i :: 0 <= i < |k| ==> IsDigit(k[i])
  }

  function Value(k: string): nat
    requires AllDigits(k)
  {
    if k == [] then 0 else 10 * Value(k[..|k| - 1]) + (k[|k| - 1] as nat - '0' as nat)
  }

  /** What cJSON_Utils takes for an array index: any digits, or none at all. */
  function LooseIndex(k: string): Option<nat> {
    if AllDigits(k) then Some(Value(k)) else None
  }

  /** The array-index of RFC 6901 section 4: no leading zeros. */
  function ArrayIndex(k: string): Option<nat> {
    if k != [] && (k[0] != '0' || |k| == 1) then LooseIndex(k) else None
  }

  function Step(d: Doc, k: string, i: Option<nat>): Option<Token> {
    match d
    case List(items) => if i.Some? && i.value < |items| then Some(Index(i.value)) else None
    case Object(m) => if Fold(k) in m then Some(Name(k)) else None
    case Leaf(_) => None
  }

  function StepBy(d: Doc, k: string, strict: bool): Option<Token> {
    Step(d, k, if strict then ArrayIndex(k) else LooseIndex(k))
  }

  /** Evaluating a pointer: as in RFC 6901 section 4 if strict, else as cJSON_Utils does. */
  function Locate(d: Doc, ks: seq<string>, strict: bool): (ts: Option<seq<Token>>)
    ensures ts.Some? ==> Resolve(d, ts.value).Some?
    decreases |ks|
  {
    if ks == [] then Some([])
    else match StepBy(d, ks[0], strict)
      case None => None
      case Some(t) =>
        ResolveOne(d, t);
        match Locate(Resolve(d, [t]).value, ks[1..], strict)
          case None => None
          case Some(ts) => assert ([t] + ts)[1..] == ts; Some([t] + ts)
  }

  lemma ResolveOne(d: Doc, t: Token)
    ensures t.Index? ==> Resolve(d, [t]) == if d.List? && t.n < |d.items| then Some(d.items[t.n]) else None
    ensures t.Name? ==>
      Resolve(d, [t]) == if d.Object? && Fold(t.name) in d.members then Some(d.members[Fold(t.name)].doc) else None
  {
    assert [t][1..] == [];
  }

  lemma StepResolves(d: Doc, k: string, strict: bool)
    ensures StepBy(d, k, strict).Some? ==> Resolve(d, [StepBy(d, k, strict).value]).Some?
  {
    if StepBy(d, k, strict).Some? {
      ResolveOne(d, StepBy(d, k, strict).value);
    }
  }

  lemma ResolveStep(d: Doc, t: Token, ts: seq<Token>)
    requires Resolve(d, [t]).Some?
    ensures Resolve(d, [t] + ts) == Resolve(Resolve(d, [t]).value, ts)
  {
    hide Fold;
    ResolveOne(d, t);
    assert ([t] + ts)[1..] == ts;
  }

  lemma LocateOne(d: Doc, k: string, strict: bool)
    ensures Locate(d, [], strict) == Some([]) && Resolve(d, []) == Some(d)
    ensures Locate(d, [k], strict)
         == if StepBy(d, k, strict).Some? then Some([] + [StepBy(d, k, strict).value]) else None
  {
    hide StepBy;
    assert [k][1..] == [];
    StepResolves(d, k, strict);
    assert StepBy(d, k, strict).Some? ==> [StepBy(d, k, strict).value] + [] == [] + [StepBy(d, k, strict).value];
  }

  /** The last token takes one step more. */
  lemma {:induction false} LocateMore(d: Doc, ks: seq<string>, k: string, strict: bool)
    ensures var ts := Locate(d, ks, strict);
      Locate(d, ks + [k], strict) ==
      if ts.Some? && StepBy(Resolve(d, ts.value).value, k, strict).Some?
      then Some(ts.value + [StepBy(Resolve(d, ts.value).value, k, strict).value]) else None
    decreases |ks|
  {
    hide StepBy;
    if ks == [] {
      assert ks + [k] == [k] && [k][1..] == [];
      LocateOne(d, k, strict);
    } else {
      assert (ks + [k])[1..] == ks[1..] + [k];
      var t := StepBy(d, ks[0], strict);
      if t.Some? {
        StepResolves(d, ks[0], strict);
        var e := Resolve(d, [t.value]).value;
        LocateMore(e, ks[1..], k, strict);
        var ts := Locate(e, ks[1..], strict);
        if ts.Some? {
          ResolveStep(d, t.value, ts.value);
          var next := StepBy(Resolve(e, ts.value).value, k, strict);
          assert next.Some? ==> [t.value] + (ts.value + [next.value]) == [t.value] + ts.value + [next.value];
        }
      }
    }
  }

  /** What is there strictly is there loosely, at the same place. */
  lemma {:induction false} StrictIsLoose(d: Doc, ks: seq<string>)
    ensures Locate(d, ks, true).Some? ==> Locate(d, ks, false) == Locate(d, ks, true)
    decreases |ks|
  {
    hide Value, Fold;
    if ks != [] && StepBy(d, ks[0], true).Some? {
      StepResolves(d, ks[0], true);
      StrictIsLoose(Resolve(d, [StepBy(d, ks[0], true).value]).value, ks[1..]);
    }
  }

  // ---------------------------------------------------------------- reading a pointer

  lemma {:induction false} ValueRead(k: string, s: string, p: nat)
    requires AllDigits(k) && Stands(s, p, k)
    ensures ReadIndex(s, p, 0) == ReadIndex(s, p + |k|, Value(k))
    decreases |k|
  {
    hide Stands, ReadIndex;
    if k != [] {
      var n := |k| - 1;
      var last := [k[n]];
      assert k == k[..n] + last;
      StandsParts(s, p, k[..n], last);
      ValueRead(k[..n], s, p);
      CharsAt(s, p + n, last);
      assert s[p + n + 0] == last[0];
      OneDigit(k[n] as nat - '0' as nat, s, p + n, Value(k[..n]));
    }
  }

  lemma {:induction false} NumberBreaksOff(k: string, s: string, p: nat, which: nat)
    requires !AllDigits(k) && Stands(s, p, Escaped(k))
    ensures p <= |s|
    ensures var q := ReadIndex(s, p, which).1; q < |s| && s[q] != '/'
    decreases |k|
  {
    hide Escaped, Stands;
    EscapedParts(k);
    var c := Escaped(k[..1]);
    StandsParts(s, p, c, Escaped(k[1..]));
    CharsAt(s, p, c);
    assert s[p + 0] == c[0];
    if IsDigit(k[0]) {
      NumberBreaksOff(k[1..], s, p + 1, 10 * which + (s[p] as nat - '0' as nat));
    }
  }

  lemma {:induction false} EscapedPlain(s: string)
    requires forall i :: 0 <= i < |s| ==> s[i] != '/' && s[i] != '~'
    ensures Escaped(s) == s
    decreases |s|
  {
    if s != [] {
      EscapedPlain(s[1..]);
    }
  }

  /** A written token at an array. */
  lemma IndexStep(items: seq<Json>, s: string, p: nat, ts: seq<Token>)
    requires ts != [] && ts[0].Name? && Stands(s, p, PointerText(ts)) && p + |PointerText(ts)| == |s|
    ensures p + 1 + |TokenText(ts[0])| <= |s|
    ensures var n := LooseIndex(ts[0].name);
      GetPointer(Arr(items), s, p) ==
      if n.Some? && n.value < |items| then On(n.value, GetPointer(items[n.value], s, p + 1 + |TokenText(ts[0])|))
      else None
  {
    hide Escaped, Stands, ReadIndex, PointerText, Value, GetPointer;
    PointerParts(s, p, ts);
    GetItem(items, s, p);
    var k, q := ts[0].name, p + 1 + |TokenText(ts[0])|;
    CharsAt(s, p + 1, TokenText(ts[0]));
    if AllDigits(k) {
      EscapedPlain(k);
      ValueRead(k, s, p + 1);
      StopsReading(s, q, Value(k));
    } else {
      NumberBreaksOff(k, s, p + 1, 0);
    }
  }

  lemma LocateNothing(d: Doc, strict: bool)
    ensures Locate(d, [], strict) == Some([]) && Resolve(d, []) == Some(d) && PathOf([]) == []
  {
  }

  lemma {:induction false} LocateItem(items: seq<Json>, ks: seq<string>)
    requires ks != []
    ensures var n, d := LooseIndex(ks[0]), Meaning(Arr(items));
      var rest := if n.Some? && n.value < |items| then Locate(Meaning(items[n.value]), ks[1..], false) else None;
      && Locate(d, ks, false) == (if rest.Some? then Some([Index(n.value)] + rest.value) else None)
      && (rest.Some? ==> Resolve(d, [Index(n.value)] + rest.value) == Resolve(Meaning(items[n.value]), rest.value))
  {
    hide LooseIndex;
    var n := LooseIndex(ks[0]);
    if n.Some? && n.value < |items| {
      ResolveOne(Meaning(Arr(items)), Index(n.value));
      var rest := Locate(Meaning(items[n.value]), ks[1..], false);
      assert rest.Some? ==> ([Index(n.value)] + rest.value)[1..] == rest.value;
    }
  }

  lemma {:induction false} LocateMember(members: seq<Member>, ks: seq<string>)
    requires ks != [] && DistinctNames(members)
    ensures var j, d := First(members, Fold(ks[0])), Meaning(Obj(members));
      var rest := if j < |members| then Locate(Meaning(members[j].value), ks[1..], false) else None;
      && Locate(d, ks, false) == (if rest.Some? then Some([Name(ks[0])] + rest.value) else None)
      && (rest.Some? ==> Resolve(d, [Name(ks[0])] + rest.value) == Resolve(Meaning(members[j].value), rest.value))
  {
    hide MeaningMembers, Fold, First;
    FirstIs(members, Fold(ks[0]));
    var j := First(members, Fold(ks[0]));
    if j < |members| {
      ResolveOne(Meaning(Obj(members)), Name(ks[0]));
      var rest := Locate(Meaning(members[j].value), ks[1..], false);
      assert rest.Some? ==> ([Name(ks[0])] + rest.value)[1..] == rest.value;
    }
  }

  /** GetPointer reaches a node exactly if evaluating loosely does, and then the same. */
  lemma {:induction false} GetReaches(v: Json, s: string, p: nat, ks: seq<string>) returns (at: Option<Position>)
    requires WellNamed(v) && Stands(s, p, PointerText(PathOf(ks))) && p + |PointerText(PathOf(ks))| == |s|
    ensures GetPointer(v, s, p) == at && (at.Some? <==> Locate(Meaning(v), ks, false).Some?)
    ensures at.Some? ==>
      var ts := Locate(Meaning(v), ks, false).value;
      && IsPosition(v, at.value) && Leads(v, at.value, ts)
      && Some(Meaning(ValueAt(v, at.value))) == Resolve(Meaning(v), ts) && WellNamed(ValueAt(v, at.value))
    decreases v
  {
    hide GetPointer, Stands, PointerText, Fold, First, Locate, Resolve, MeaningMembers, LooseIndex;
    at := GetPointer(v, s, p);
    var ts := PathOf(ks);
    if ks == [] {
      PointerOpens(ts);
      GetNothing(v, s, p);
      LocateNothing(Meaning(v), false);
    } else {
      PathParts(ks);
      PointerParts(s, p, ts);
      var q := p + 1 + |TokenText(ts[0])|;
      match v
      case Arr(items) =>
        var n := LooseIndex(ks[0]);
        IndexStep(items, s, p, ts);
        LocateItem(items, ks);
        if n.Some? && n.value < |items| {
          var rest := GetReaches(items[n.value], s, q, ks[1..]);
        }
      case Obj(members) =>
        var j := First(members, Fold(ks[0]));
        MemberStep(members, s, p, ts);
        LocateMember(members, ks);
        if j < |members| {
          var rest := GetReaches(members[j].value, s, q, ks[1..]);
        }
      case _ =>
        LocateLeaf(v, ks);
        GetLeaf(v, s, p);
    }
  }

  lemma LocateLeaf(v: Json, ks: seq<string>)
    requires !v.Arr? && !v.Obj? && ks != []
    ensures Locate(Meaning(v), ks, false) == None
  {
  }

  lemma GetLeaf(v: Json, s: string, p: nat)
    requires !v.Arr? && !v.Obj? && p < |s| && s[p] == '/'
    ensures GetPointer(v, s, p) == None
  {
  }

  lemma PutMember(members: seq<Member>, j: nat, w: Json)
    requires DistinctNames(members) && j < |members|
    ensures var put := members[j := Member(members[j].key, w)]; var f := Fold(members[j].key);
      && DistinctNames(put)
      && MeaningMembers(put) == MeaningMembers(members)[f := Entry(members[j].key, Meaning(w))]
  {
    hide MeaningMembers, Meaning, Fold;
    var put, f := members[j := Member(members[j].key, w)], Fold(members[j].key);
    MapOf(members);
    var m := MeaningMembers(members)[f := Entry(members[j].key, Meaning(w))];
    forall i | 0 <= i < |put|
      ensures var g := Fold(put[i].key); g in m && m[g] == Entry(put[i].key, Meaning(put[i].value))
    {
      assert put[i].key == members[i].key;
    }
    forall g | g in m ensures exists i :: 0 <= i < |put| && Fold(put[i].key) == g {
      if g == f {
        assert Fold(put[j].key) == g;
      } else {
        var i :| 0 <= i < |members| && Fold(members[i].key) == g;
        assert Fold(put[i].key) == g;
      }
    }
    MapIs(put, m);
  }

  /** Replacing a node replaces the part of the meaning that its tokens lead to. */
  lemma {:induction false} PutMeans(v: Json, at: Position, ts: seq<Token>, w: Json)
    requires WellNamed(v) && WellNamed(w) && IsPosition(v, at) && Leads(v, at, ts)
    ensures WellNamed(Put(v, at, w)) && Meaning(Put(v, at, w)) == Replace(Meaning(v), ts, Meaning(w))
    decreases v
  {
    hide Fold, MeaningMembers;
    if at != [] {
      match v
      case Arr(items) =>
        PutMeans(items[at[0]], at[1..], ts[1..], w);
        assert Meaning(Put(v, at, w)).items == Meaning(v).items[at[0] := Meaning(Put(items[at[0]], at[1..], w))];
      case Obj(members) =>
        var j := at[0];
        PutMeans(members[j].value, at[1..], ts[1..], w);
        PutMember(members, j, Put(members[j].value, at[1..], w));
        MapOf(members);
    }
  }

  // ---------------------------------------------------------------- splitting a path

  /** cJSONUtils_InplaceDecodePointerString; a lone tilde at the end would take it behind the string. */
  function Decoded(s: string): Option<string> {
    if s == [] then Some([])
    else if s[0] != '~' then Onto([s[0]], Decoded(s[1..]))
    else if |s| == 1 then None
    else Onto([if s[1] == '0' then '~' else '/'], Decoded(s[2..]))
  }

  lemma {:induction false} DecodedEscaped(k: string)
    ensures Decoded(Escaped(k)) == Some(k)
    decreases |k|
  {
    if k != [] {
      EscapedParts(k);
      var c, rest := Escaped(k[..1]), Escaped(k[1..]);
      DecodedEscaped(k[1..]);
      assert (c + rest)[|c|..] == rest;
      assert Decoded(c + rest) == Onto([k[0]], Decoded(rest));
      assert [k[0]] + k[1..] == k;
    }
  }

  lemma {:induction false} DecodedPlain(s: string)
    requires forall i :: 0 <= i < |s| ==> s[i] != '~'
    ensures Decoded(s) == Some(s)
    decreases |s|
  {
    if s != [] {
      DecodedPlain(s[1..]);
      assert [s[0]] + s[1..] == s;
    }
  }

  predicate Space(c: char) {
    c == ' ' || '\t' <= c <= '\r'
  }

  /** atoi */
  function Atoi(s: string): int {
    if s != [] && Space(s[0]) then Atoi(s[1..])
    else if s != [] && s[0] == '-' then 0 - ReadIndex(s, 1, 0).0
    else if s != [] && s[0] == '+' then ReadIndex(s, 1, 0).0
    else ReadIndex(s, 0, 0).0
  }

  lemma AtoiDigits(n: nat)
    ensures Atoi(Digits(n)) == n && Digits(n) != "-"
  {
    var s := Digits(n);
    assert s[0..|s|] == s;
    DigitsRead(n, s, 0);
    assert IsDigit(s[0]);
  }

  /** atoi skips blanks, reads a sign and digits, and ignores what follows; without digits it gives 0. */
  lemma {:induction false} AtoiReads(blanks: string, sign: string, digits: string, rest: string)
    requires (forall i :: 0 <= i < |blanks| ==> Space(blanks[i])) && (sign == "" || sign == "+" || sign == "-")
    requires AllDigits(digits) && (rest == [] || !IsDigit(rest[0]))
    requires sign == "" && digits == "" && rest != [] ==> !Space(rest[0]) && rest[0] != '+' && rest[0] != '-'
    ensures Atoi(blanks + (sign + (digits + rest))) == if sign == "-" then 0 - Value(digits) else Value(digits)
    decreases |blanks|
  {
    hide Value, ReadIndex;
    var s := blanks + (sign + (digits + rest));
    if blanks == [] {
      assert s == sign + (digits + rest);
      DigitsReadTo(s, |sign|, digits, rest);
      assert digits != [] ==> IsDigit(digits[0]);
    } else {
      AtoiReads(blanks[1..], sign, digits, rest);
      assert s[1..] == blanks[1..] + (sign + (digits + rest));
    }
  }

  lemma DigitsReadTo(s: string, p: nat, digits: string, rest: string)
    requires p <= |s| && s[p..] == digits + rest && AllDigits(digits) && (rest == [] || !IsDigit(rest[0]))
    ensures ReadIndex(s, p, 0).0 == Value(digits)
  {
    var q := p + |digits|;
    assert s[p..q] == digits && s[q..] == rest;
    ValueRead(digits, s, p);
    if q < |s| {
      assert s[q] == rest[0];
    }
    StopsHere(s, q, Value(digits));
  }

  lemma StopsHere(s: string, q: nat, n: nat)
    requires q == |s| || (q < |s| && !IsDigit(s[q]))
    ensures ReadIndex(s, q, n) == (n, q)
  {
  }

  /** strrchr(s, '/') */
  function LastSlash(s: string): (i: Option<nat>)
    ensures i.Some? ==> i.value < |s| && s[i.value] == '/'
  {
    if s == [] then None
    else if s[|s| - 1] == '/' then Some(|s| - 1)
    else LastSlash(s[..|s| - 1])
  }

  lemma {:induction false} LastSlashIs(s: string, t: string)
    requires forall i :: 0 <= i < |t| ==> t[i] != '/'
    ensures LastSlash(s + ['/'] + t) == Some(|s|)
    decreases |t|
  {
    var w := s + ['/'] + t;
    if t != [] {
      assert w[..|w| - 1] == s + ['/'] + t[..|t| - 1];
      LastSlashIs(s, t[..|t| - 1]);
    }
  }

  lemma {:induction false} PointerAppend(ts: seq<Token>, t: Token)
    ensures PointerText(ts + [t]) == PointerText(ts) + ['/'] + TokenText(t)
    decreases |ts|
  {
    hide TokenText;
    if ts == [] {
      assert [] + [t] == [t];
      assert PointerText([t]) == ['/'] + TokenText(t) + PointerText([t][1..]);
    } else {
      assert (ts + [t])[1..] == ts[1..] + [t];
      PointerAppend(ts[1..], t);
    }
  }

  lemma TokenPlain(t: Token)
    ensures forall i :: 0 <= i < |TokenText(t)| ==> TokenText(t)[i] != '/'
    ensures Decoded(TokenText(t)) == Some(if t.Name? then t.name else TokenText(t))
  {
    match t
    case Index(n) =>
      DecodedPlain(Digits(n));
    case Name(k) =>
      EscapedHasNoSlash(k);
      DecodedEscaped(k);
  }

  // ---------------------------------------------------------------- the operations

  /** Crash stands for a null pointer or a read behind the end of a string. */
  datatype Outcome = Crash | Return(code: int, doc: Json)

  /** The path split at its last slash, the last token decoded. */
  function Split(path: string): Option<(string, string)> {
    match LastSlash(path)
    case None => None
    case Some(i) =>
      match Decoded(path[i + 1..])
      case None => None
      case Some(child) => Some((path[..i], child))
  }

  lemma SplitPointer(ts: seq<Token>, t: Token)
    ensures Split(PointerText(ts + [t])) == Some((PointerText(ts), if t.Name? then t.name else TokenText(t)))
  {
    hide TokenText, PointerText, LastSlash, Decoded;
    var path, token := PointerText(ts + [t]), TokenText(t);
    PointerAppend(ts, t);
    TokenPlain(t);
    LastSlashIs(PointerText(ts), token);
    assert path[..|PointerText(ts)|] == PointerText(ts) && path[|PointerText(ts)| + 1..] == token;
  }

  /** cJSONUtils_PatchDetach: the object without the node, and the node if there is one; None is a crash. */
  function Detach(doc: Json, path: string): Option<(Json, Option<Json>)> {
    match Split(path)
    case None => None
    case Some((parent, child)) =>
      match GetPointer(doc, parent, 0)
      case None => Some((doc, None))
      case Some(at) =>
        match ValueAt(doc, at)
          case Arr(items) =>
            var n := Atoi(child);
            if 0 <= n < |items| then Some((Put(doc, at, Arr(Without(items, n))), Some(items[n])))
            else Some((doc, None))
          case Obj(members) =>
            var j := First(members, Fold(child));
            if j < |members| then Some((Put(doc, at, Obj(Without(members, j))), Some(members[j].value)))
            else Some((doc, None))
          case _ => Some((doc, None))
  }

  function InsertAt<T>(s: seq<T>, i: nat, x: T): seq<T> {
    if i < |s| then s[..i] + [x] + s[i..] else s + [x]
  }

  /** The array or object with the value added; None: it stays as it is. */
  function Added(v: Json, child: string, value: Json): Option<Json> {
    match v
    case Arr(items) =>
      if child == "-" then Some(Arr(items + [value]))
      else if Atoi(child) < 0 then None
      else Some(Arr(InsertAt(items, Atoi(child), value)))
    case Obj(members) =>
      var j := First(members, Fold(child));
      Some(Obj((if j < |members| then Without(members, j) else members) + [Member(child, value)]))
    case _ => None
  }

  /** The end of cJSONUtils_ApplyPatch. */
  function Add(doc: Json, path: string, value: Json): Outcome {
    match Split(path)
    case None => Crash
    case Some((parent, child)) =>
      match GetPointer(doc, parent, 0)
      case None => Return(9, doc)
      case Some(at) =>
        match Added(ValueAt(doc, at), child, value)
        case None => Return(0, doc)
        case Some(v) => Return(0, Put(doc, at, v))
  }

  /** cJSON_GetObjectItem */
  function Lookup(v: Json, name: string): Option<Json> {
    if v.Obj? && First(v.members, Fold(name)) < |v.members| then
      Some(v.members[First(v.members, Fold(name))].value)
    else None
  }

  function AddOutcome(doc: Json, path: Json, value: Json): Outcome {
    if path.Str? then Add(doc, path.s, value) else Crash
  }

  /** The operation "test": the members it compares get sorted. */
  function TestAt(doc: Json, path: Json, value: Option<Json>): Outcome {
    if !path.Str? || value.None? || GetPointer(doc, path.s, 0).None? then Crash
    else
      var at := GetPointer(doc, path.s, 0).value;
      var v := ValueAt(doc, at);
      Return(CompareValues(v, value.value), Put(doc, at, Compared(v, value.value)))
  }

  /** cJSONUtils_ApplyPatch */
  function ApplyPatch(doc: Json, patch: Json): Outcome {
    match (Lookup(patch, "op"), Lookup(patch, "path"))
    case (Some(op), Some(path)) =>
      if !op.Str? then Crash
      else if op.s == "remove" || op.s == "replace" then
        if !path.Str? then Crash
        else match Detach(doc, path.s)
          case None => Crash
          case Some((rest, _)) =>
            if op.s == "remove" then Return(0, rest)
            else match Lookup(patch, "value")
              case None => Return(7, rest)
              case Some(value) => Add(rest, path.s, value)
      else if op.s == "move" then
        match Lookup(patch, "from")
        case None => Return(4, doc)
        case Some(from) =>
          if !from.Str? then Crash
          else match Detach(doc, from.s)
            case None => Crash
            case Some((rest, None)) => Return(5, rest)
            case Some((rest, Some(value))) => AddOutcome(rest, path, value)
      else if op.s == "copy" then
        match Lookup(patch, "from")
        case None => Return(4, doc)
        case Some(from) =>
          if !from.Str? then Crash
          else match GetPointer(doc, from.s, 0)
            case None => Return(5, doc)
            case Some(at) =>
              AddOutcome(doc, path, ValueAt(doc, at))
      else if op.s == "test" then TestAt(doc, path, Lookup(patch, "value"))
      else if op.s == "add" then
        match Lookup(patch, "value")
        case None => Return(7, doc)
        case Some(value) => AddOutcome(doc, path, value)
      else Return(3, doc)
    case _ => Return(2, doc)
  }

  /** cJSONUtils_ApplyPatches: it stops at the first error. */
  function ApplyPatches(doc: Json, patches: seq<Json>): Outcome
    decreases |patches|
  {
    if patches == [] then Return(0, doc)
    else match ApplyPatch(doc, patches[0])
      case Crash => Crash
      case Return(code, next) => if code != 0 then Return(code, next) else ApplyPatches(next, patches[1..])
  }

  // ---------------------------------------------------------------- what they mean

  /** What PatchDetach takes out of an array or object, and what is left; atoi reads the token of an array. */
  function TakenAt(c: Doc, k: string): Option<(Doc, Doc)> {
    match c
    case List(items) =>
      var n := Atoi(k);
      if 0 <= n < |items| then Some((List(Without(items, n)), items[n])) else None
    case Object(m) => if Fold(k) in m then Some((Object(m - {Fold(k)}), m[Fold(k)].doc)) else None
    case Leaf(_) => None
  }

  /** What the end of ApplyPatch makes of an array or object: an index behind the array appends, a negative one
      and a parent that is neither do nothing. */
  function PutAt(c: Doc, k: string, x: Doc): Doc {
    match c
    case List(items) =>
      if k == "-" then List(items + [x]) else if Atoi(k) < 0 then c else List(InsertAt(items, Atoi(k), x))
    case Object(m) => Object(m[Fold(k) := Entry(k, x)])
    case Leaf(_) => c
  }

  /** Where a text leads as cJSON_Utils reads it: without a slash at its start to the root, and nowhere if it is no
      pointer otherwise. */
  function Find(d: Doc, s: string): (ts: Option<seq<Token>>)
    ensures ts.Some? ==> Resolve(d, ts.value).Some?
  {
    if s == [] || s[0] != '/' then Some([])
    else match Tokens(s)
      case None => None
      case Some(ks) => Locate(d, ks, false)
  }

  /** The container in front of the last slash of a text. */
  function Container(d: Doc, s: string): Option<seq<Token>>
    requires Split(s).Some?
  {
    Find(d, Split(s).value.0)
  }

  function TakenBy(d: Doc, s: string): Option<(Doc, Doc)>
    requires Split(s).Some?
  {
    TakenIn(d, Container(d, s), Split(s).value.1)
  }

  function PutBy(d: Doc, s: string, x: Doc): Option<Doc>
    requires Split(s).Some?
  {
    PutInto(d, Container(d, s), Split(s).value.1, x)
  }

  function TakenIn(d: Doc, at: Option<seq<Token>>, k: string): Option<(Doc, Doc)>
    requires at.Some? ==> Resolve(d, at.value).Some?
  {
    match at
    case None => None
    case Some(ts) =>
      match TakenAt(Resolve(d, ts).value, k)
      case None => None
      case Some((c, x)) => Some((Replace(d, ts, c), x))
  }

  function PutInto(d: Doc, at: Option<seq<Token>>, k: string, x: Doc): Option<Doc>
    requires at.Some? ==> Resolve(d, at.value).Some?
  {
    match at
    case None => None
    case Some(ts) => Some(Replace(d, ts, PutAt(Resolve(d, ts).value, k, x)))
  }

  /** The container a pointer ends in, as cJSON_Utils finds it. */
  function Parent(d: Doc, ks: seq<string>): Option<seq<Token>>
    requires ks != []
  {
    Locate(d, ks[..|ks| - 1], false)
  }

  function Last(ks: seq<string>): string
    requires ks != []
  {
    ks[|ks| - 1]
  }

  function Taken(d: Doc, ks: seq<string>): Option<(Doc, Doc)>
    requires ks != []
  {
    TakenIn(d, Parent(d, ks), Last(ks))
  }

  function PutIn(d: Doc, ks: seq<string>, x: Doc): Option<Doc>
    requires ks != []
  {
    PutInto(d, Parent(d, ks), Last(ks), x)
  }

  lemma WithoutDistinct(members: seq<Member>, j: nat)
    requires DistinctNames(members) && j < |members|
    ensures DistinctNames(Without(members, j))
    ensures forall i :: 0 <= i < |members| && i != j ==> Fold(members[i].key) != Fold(members[j].key)
  {
    hide Fold;
    var rest := Without(members, j);
    assert forall i :: 0 <= i < |rest| ==> rest[i] == members[if i < j then i else i + 1];
  }

  /** Every member left has its entry in the map without the one taken out ... */
  lemma WithoutEntry(members: seq<Member>, j: nat, i: nat)
    requires DistinctNames(members) && j < |members| && i < |Without(members, j)|
    ensures var rest, m := Without(members, j), MeaningMembers(members) - {Fold(members[j].key)};
      var g := Fold(rest[i].key);
      g in m && m[g] == Entry(rest[i].key, Meaning(rest[i].value))
  {
    hide MeaningMembers, Meaning, Fold, Without;
    WithoutAt(members, j);
    WithoutDistinct(members, j);
    MapOf(members);
    var k := if i < j then i else i + 1;
    assert Without(members, j)[i] == members[k];
  }

  /** ... and every entry left its member. */
  lemma WithoutCovers(members: seq<Member>, j: nat, g: string) returns (i: nat)
    requires DistinctNames(members) && j < |members| && g in MeaningMembers(members) - {Fold(members[j].key)}
    ensures i < |Without(members, j)| && Fold(Without(members, j)[i].key) == g
  {
    hide MeaningMembers, Meaning, Fold, Without;
    WithoutAt(members, j);
    MapOf(members);
    var k :| 0 <= k < |members| && Fold(members[k].key) == g;
    i := if k < j then k else k - 1;
    assert Without(members, j)[i] == members[k];
  }

  lemma WithoutMember(members: seq<Member>, j: nat)
    requires DistinctNames(members) && j < |members|
    ensures DistinctNames(Without(members, j))
    ensures MeaningMembers(Without(members, j)) == MeaningMembers(members) - {Fold(members[j].key)}
  {
    hide MeaningMembers, Meaning, Fold, DistinctNames, Without;
    WithoutDistinct(members, j);
    var rest, m := Without(members, j), MeaningMembers(members) - {Fold(members[j].key)};
    forall i | 0 <= i < |rest|
      ensures var g := Fold(rest[i].key); g in m && m[g] == Entry(rest[i].key, Meaning(rest[i].value))
    {
      WithoutEntry(members, j, i);
    }
    forall g | g in m ensures exists i :: 0 <= i < |rest| && Fold(rest[i].key) == g {
      var i := WithoutCovers(members, j, g);
    }
    MapIs(rest, m);
  }

  lemma WithMember(members: seq<Member>, k: string, w: Json)
    requires DistinctNames(members) && NulFree(k) && Fold(k) !in MeaningMembers(members)
    ensures DistinctNames(members + [Member(k, w)])
    ensures MeaningMembers(members + [Member(k, w)]) == MeaningMembers(members)[Fold(k) := Entry(k, Meaning(w))]
  {
    hide MeaningMembers, Meaning, Fold;
    var more, m := members + [Member(k, w)], MeaningMembers(members)[Fold(k) := Entry(k, Meaning(w))];
    MapOf(members);
    forall g | g in m ensures exists i :: 0 <= i < |more| && Fold(more[i].key) == g {
      if g == Fold(k) {
        assert Fold(more[|members|].key) == g;
      } else {
        var i :| 0 <= i < |members| && Fold(members[i].key) == g;
        assert more[i] == members[i];
      }
    }
    MapIs(more, m);
  }

  lemma FindPath(d: Doc, ks: seq<string>)
    ensures Find(d, PathText(ks)) == Locate(d, ks, false)
  {
    hide Locate, Tokens, PointerText;
    PointerTexts(PathText(ks), ks);
    PointerOpens(PathOf(ks));
    if ks == [] {
      LocateNothing(d, false);
    }
  }

  lemma GetRoot(v: Json, s: string)
    requires s == [] || s[0] != '/'
    ensures GetPointer(v, s, 0) == Some([]) && Leads(v, [], [])
  {
  }

  /** GetPointer on any text. */
  lemma NodeFound(doc: Json, s: string) returns (at: Option<Position>)
    requires WellNamed(doc)
    ensures GetPointer(doc, s, 0) == at && (at.Some? <==> Find(Meaning(doc), s).Some?)
    ensures at.Some? ==>
      var ts := Find(Meaning(doc), s).value;
      && IsPosition(doc, at.value) && Leads(doc, at.value, ts)
      && Some(Meaning(ValueAt(doc, at.value))) == Resolve(Meaning(doc), ts) && WellNamed(ValueAt(doc, at.value))
  {
    hide GetPointer, PointerText, Resolve, Meaning, WellNamed, TokensAt, Locate;
    if s == [] || s[0] != '/' {
      GetRoot(doc, s);
      LocateNothing(Meaning(doc), false);
      at := Some([]);
    } else if Tokens(s).None? {
      BadPointerFindsNothing(doc, s, 0);
      at := None;
    } else {
      PointerTexts(s, Tokens(s).value);
      assert s[0..|s|] == s;
      at := GetReaches(doc, s, 0, Tokens(s).value);
    }
  }

  lemma SplitPath(ks: seq<string>)
    requires ks != []
    ensures Split(PathText(ks)) == Some((PathText(ks[..|ks| - 1]), Last(ks)))
  {
    hide PointerText, Split;
    PathParts(ks);
    SplitPointer(PathOf(ks[..|ks| - 1]), Name(Last(ks)));
  }

  lemma WithoutItem(items: seq<Json>, n: nat)
    requires WellNamed(Arr(items)) && n < |items|
    ensures WellNamed(Arr(Without(items, n))) && WellNamed(items[n])
    ensures Meaning(Arr(Without(items, n))) == List(Without(Meaning(Arr(items)).items, n))
  {
    assert Meaning(Arr(Without(items, n))).items == Without(Meaning(Arr(items)).items, n);
  }

  lemma InsertedItem(items: seq<Json>, n: nat, w: Json)
    requires WellNamed(Arr(items)) && WellNamed(w)
    ensures WellNamed(Arr(InsertAt(items, n, w)))
    ensures Meaning(Arr(InsertAt(items, n, w))) == List(InsertAt(Meaning(Arr(items)).items, n, Meaning(w)))
  {
    assert Meaning(Arr(InsertAt(items, n, w))).items == InsertAt(Meaning(Arr(items)).items, n, Meaning(w));
  }

  lemma AppendedItem(items: seq<Json>, w: Json)
    requires WellNamed(Arr(items)) && WellNamed(w)
    ensures WellNamed(Arr(items + [w])) && Meaning(Arr(items + [w])) == List(Meaning(Arr(items)).items + [Meaning(w)])
  {
    assert Meaning(Arr(items + [w])).items == Meaning(Arr(items)).items + [Meaning(w)];
  }

  /** Detaching by any text with a slash: what is taken, and that the rest of the document stays. */
  lemma DetachTakes(doc: Json, s: string)
    requires WellNamed(doc) && Split(s).Some?
    ensures var r, w := Detach(doc, s), TakenBy(Meaning(doc), s);
      && r.Some? && WellNamed(r.value.0) && (r.value.1.Some? <==> w.Some?)
      && (w.None? ==> r.value.0 == doc)
      && (w.Some? ==> WellNamed(r.value.1.value) && w.value == (Meaning(r.value.0), Meaning(r.value.1.value)))
  {
    hide GetPointer, Resolve, Replace, Fold, MeaningMembers, Split, Put, Atoi, Find, First;
    var k := Split(s).value.1;
    var at := NodeFound(doc, Split(s).value.0);
    if at.Some? {
      var ts := Container(Meaning(doc), s).value;
      match ValueAt(doc, at.value)
      case Arr(items) =>
        var n := Atoi(k);
        if 0 <= n < |items| {
          WithoutItem(items, n);
          PutMeans(doc, at.value, ts, Arr(Without(items, n)));
        }
      case Obj(members) =>
        FirstIs(members, Fold(k));
        var j := First(members, Fold(k));
        if j < |members| {
          WithoutMember(members, j);
          WellNamedMembers(members, j);
          PutMeans(doc, at.value, ts, Obj(Without(members, j)));
        }
      case _ =>
    }
  }

  /** A pointer is cut into the pointer of the parent and its last token. */
  lemma PathSplits(d: Doc, ks: seq<string>)
    requires ks != []
    ensures Split(PathText(ks)) == Some((PathText(ks[..|ks| - 1]), Last(ks)))
    ensures Container(d, PathText(ks)) == Parent(d, ks) && TakenBy(d, PathText(ks)) == Taken(d, ks)
    ensures forall x :: PutBy(d, PathText(ks), x) == PutIn(d, ks, x)
  {
    hide Split, Find, PathText, Locate;
    SplitPath(ks);
    FindPath(d, ks[..|ks| - 1]);
  }

  lemma WellNamedMembers(members: seq<Member>, j: nat)
    requires WellNamed(Obj(members)) && j < |members|
    ensures WellNamed(members[j].value) && WellNamed(Obj(Without(members, j)))
  {
    hide Fold;
    WithoutDistinct(members, j);
  }

  lemma WellNamedWith(members: seq<Member>, k: string, w: Json)
    requires WellNamed(Obj(members)) && WellNamed(w) && NulFree(k) && Fold(k) !in MeaningMembers(members)
    ensures WellNamed(Obj(members + [Member(k, w)]))
  {
    hide Fold, MeaningMembers;
    WithMember(members, k, w);
  }

  lemma AddedMeans(v: Json, k: string, value: Json)
    requires WellNamed(v) && WellNamed(value) && NulFree(k)
    ensures match Added(v, k, value)
      case None => PutAt(Meaning(v), k, Meaning(value)) == Meaning(v)
      case Some(w) => WellNamed(w) && Meaning(w) == PutAt(Meaning(v), k, Meaning(value))
  {
    hide Fold, MeaningMembers, Atoi, First, NulFree;
    match v
    case Arr(items) =>
      if k == "-" {
        AppendedItem(items, value);
      } else if Atoi(k) >= 0 {
        InsertedItem(items, Atoi(k), value);
      }
    case Obj(members) =>
      var rest := MakeRoom(members, k, Entry(k, Meaning(value)));
      WellNamedWith(rest, k, value);
      WithMember(rest, k, value);
    case _ =>
  }

  /** Adding at any text with a slash. */
  lemma AddPuts(doc: Json, s: string, value: Json)
    requires WellNamed(doc) && WellNamed(value) && Split(s).Some? && NulFree(Split(s).value.1)
    ensures var r, w := Add(doc, s, value), PutBy(Meaning(doc), s, Meaning(value));
      && (w.None? ==> r == Return(9, doc))
      && (w.Some? ==> r.Return? && r.code == 0 && WellNamed(r.doc) && Meaning(r.doc) == w.value)
  {
    hide GetPointer, Resolve, Replace, Meaning, WellNamed, Split, Put, Find, Added, PutAt, NulFree, Leads;
    var k := Split(s).value.1;
    var at := NodeFound(doc, Split(s).value.0);
    if at.Some? {
      var ts, v := Container(Meaning(doc), s).value, ValueAt(doc, at.value);
      AddedMeans(v, k, value);
      if Added(v, k, value).Some? {
        PutMeans(doc, at.value, ts, Added(v, k, value).value);
      } else {
        ReplaceSelf(Meaning(doc), ts);
      }
    }
  }

  /** Deleting a namesake first. */
  lemma MakeRoom(members: seq<Member>, k: string, e: Entry) returns (rest: seq<Member>)
    requires WellNamed(Obj(members))
    ensures var j := First(members, Fold(k)); rest == if j < |members| then Without(members, j) else members
    ensures WellNamed(Obj(rest)) && Fold(k) !in MeaningMembers(rest)
    ensures MeaningMembers(rest)[Fold(k) := e] == MeaningMembers(members)[Fold(k) := e]
  {
    hide Fold, MeaningMembers;
    FirstIs(members, Fold(k));
    var j := First(members, Fold(k));
    rest := members;
    if j < |members| {
      WithoutMember(members, j);
      WellNamedMembers(members, j);
      rest := Without(members, j);
    }
  }
}
