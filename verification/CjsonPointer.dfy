/** JSON Pointer (RFC 6901) as cJSON_Utils reads and writes it.  A node is identified by its position: the
    child numbers on the way from the root. */
module CjsonPointer {
  import opened Wrappers
  import opened CjsonKeys
  import opened CjsonString
  import opened CjsonText
  import opened CjsonDoc

  type Position = seq<nat>

  // ---------------------------------------------------------------- tokens

  function Escaped(s: string): string {
    if s == [] then []
    else (if s[0] == '/' then ['~', '1'] else if s[0] == '~' then ['~', '0'] else [s[0]]) + Escaped(s[1..])
  }

  /** %d */
  function Digits(n: nat): (s: string)
    ensures s != [] && forall i :: 0 <= i < |s| ==> IsDigit(s[i])
  {
    if n < 10 then ['0' + n as char] else Digits(n / 10) + ['0' + (n % 10) as char]
  }

  datatype Token = Index(n: nat) | Name(name: string)

  function TokenText(t: Token): string {
    match t
    case Index(n) => Digits(n)
    case Name(name) => Escaped(name)
  }

  function PointerText(ts: seq<Token>): string {
    if ts == [] then [] else ['/'] + TokenText(ts[0]) + PointerText(ts[1..])
  }

  // ---------------------------------------------------------------- positions

  predicate IsPosition(v: Json, at: Position)
    decreases v
  {
    at == [] ||
    match v
    case Arr(items) => at[0] < |items| && IsPosition(items[at[0]], at[1..])
    case Obj(members) => at[0] < |members| && IsPosition(members[at[0]].value, at[1..])
    case _ => false
  }

  function ValueAt(v: Json, at: Position): Json
    requires IsPosition(v, at)
    decreases v
  {
    if at == [] then v
    else match v
      case Arr(items) => ValueAt(items[at[0]], at[1..])
      case Obj(members) => ValueAt(members[at[0]].value, at[1..])
  }

  /** The tokens of a position. */
  function TokensTo(v: Json, at: Position): (ts: seq<Token>)
    requires IsPosition(v, at)
    ensures |ts| == |at|
    decreases v
  {
    if at == [] then []
    else match v
      case Arr(items) => [Index(at[0])] + TokensTo(items[at[0]], at[1..])
      case Obj(members) => [Name(members[at[0]].key)] + TokensTo(members[at[0]].value, at[1..])
  }

  // ---------------------------------------------------------------- reading tokens

  /** cJSONUtils_Pstrcasecmp is 0: the name a against the escaped token at p. */
  predicate Matches(a: string, s: string, p: nat)
    decreases |a|
  {
    if a != [] && p < |s| && s[p] != '/' then
      if s[p] == '~' then
        && p + 1 < |s| && ((s[p + 1] == '0' && a[0] == '~') || (s[p + 1] == '1' && a[0] == '/'))
        && Matches(a[1..], s, p + 2)
      else Lower(a[0]) == Lower(s[p]) && Matches(a[1..], s, p + 1)
    else (p < |s| && s[p] != '/') == (a != [])
  }

  function TokenEnd(s: string, p: nat): (q: nat)
    ensures p <= |s| ==> p <= q <= |s|
    decreases |s| - p
  {
    if p < |s| && s[p] != '/' then TokenEnd(s, p + 1) else p
  }

  /** The digits at p: their value on top of `which`, and where they end. */
  function ReadIndex(s: string, p: nat, which: nat): (r: (nat, nat))
    ensures p <= |s| ==> p <= r.1 <= |s|
    decreases |s| - p
  {
    if p < |s| && IsDigit(s[p]) then ReadIndex(s, p + 1, 10 * which + (s[p] as nat - '0' as nat)) else (which, p)
  }

  /** The first member whose name matches the token, or |members|. */
  function FindMember(members: seq<Member>, s: string, p: nat): (j: nat)
    ensures j <= |members|
  {
    if members == [] || Matches(members[0].key, s, p) then 0 else 1 + FindMember(members[1..], s, p)
  }

  function On(n: nat, r: Option<Position>): (o: Option<Position>)
    ensures o.Some? <==> r.Some?
    ensures o.Some? ==> o.value != [] && o.value[0] == n && o.value[1..] == r.value
  {
    match r
    case None => None
    case Some(path) => Some([n] + path)
  }

  /** cJSONUtils_GetPointer from the place p of the pointer on. */
  function GetPointer(v: Json, s: string, p: nat): (r: Option<Position>)
    requires p <= |s|
    ensures r.Some? ==> IsPosition(v, r.value)
    decreases v
  {
    if p == |s| || s[p] != '/' then Some([])
    else match v
      case Arr(items) =>
        var (which, q) := ReadIndex(s, p + 1, 0);
        if (q < |s| && s[q] != '/') || which >= |items| then None
        else On(which, GetPointer(items[which], s, q))
      case Obj(members) =>
        var j := FindMember(members, s, p + 1);
        if j == |members| then None
        else On(j, GetPointer(members[j].value, s, TokenEnd(s, p + 1)))
      case _ => None
  }

  // ---------------------------------------------------------------- the search

  /** cJSONUtils_FindPointerFromObjectTo: v stands at `here`, the node looked for at `target`. */
  function FindPointer(v: Json, here: Position, target: Position): Option<string>
    decreases v
  {
    if here == target then Some([])
    else match v
      case Arr(items) => FindInItems(items, 0, here, target)
      case Obj(members) => FindInMembers(members, 0, here, target)
      case _ => None
  }

  function FindInItems(items: seq<Json>, c: nat, here: Position, target: Position): Option<string>
    decreases items, |items| - c
  {
    if c >= |items| then None
    else match FindPointer(items[c], here + [c], target)
      case Some(found) => Some(['/'] + Digits(c) + found)
      case None => FindInItems(items, c + 1, here, target)
  }

  function FindInMembers(members: seq<Member>, c: nat, here: Position, target: Position): Option<string>
    decreases members, |members| - c
  {
    if c >= |members| then None
    else match FindPointer(members[c].value, here + [c], target)
      case Some(found) => Some(['/'] + Escaped(members[c].key) + found)
      case None => FindInMembers(members, c + 1, here, target)
  }

  /** Searching elsewhere finds nothing. */
  lemma {:induction false} NotBelow(v: Json, here: Position, target: Position)
    requires !(here <= target)
    ensures FindPointer(v, here, target) == None
    decreases v
  {
    match v
    case Arr(items) =>
      forall c | 0 <= c < |items| ensures FindPointer(items[c], here + [c], target) == None {
        NotBelow(items[c], here + [c], target);
      }
      ItemsNone(items, 0, here, target);
    case Obj(members) =>
      forall c | 0 <= c < |members| ensures FindPointer(members[c].value, here + [c], target) == None {
        NotBelow(members[c].value, here + [c], target);
      }
      MembersNone(members, 0, here, target);
    case _ =>
  }

  lemma {:induction false} ItemsNone(items: seq<Json>, c: nat, here: Position, target: Position)
    requires forall i :: c <= i < |items| ==> FindPointer(items[i], here + [i], target) == None
    ensures FindInItems(items, c, here, target) == None
    decreases |items| - c
  {
    if c < |items| {
      ItemsNone(items, c + 1, here, target);
    }
  }

  lemma {:induction false} MembersNone(members: seq<Member>, c: nat, here: Position, target: Position)
    requires forall i :: c <= i < |members| ==> FindPointer(members[i].value, here + [i], target) == None
    ensures FindInMembers(members, c, here, target) == None
    decreases |members| - c
  {
    if c < |members| {
      MembersNone(members, c + 1, here, target);
    }
  }

  lemma {:induction false} ItemsUpTo(items: seq<Json>, c: nat, k: nat, here: Position, target: Position)
    requires c <= k < |items| && FindPointer(items[k], here + [k], target).Some?
    requires forall i :: c <= i < k ==> FindPointer(items[i], here + [i], target) == None
    ensures FindInItems(items, c, here, target)
         == Some(['/'] + Digits(k) + FindPointer(items[k], here + [k], target).value)
    decreases k - c
  {
    if c < k {
      ItemsUpTo(items, c + 1, k, here, target);
    }
  }

  lemma {:induction false} MembersUpTo(members: seq<Member>, c: nat, k: nat, here: Position, target: Position)
    requires c <= k < |members| && FindPointer(members[k].value, here + [k], target).Some?
    requires forall i :: c <= i < k ==> FindPointer(members[i].value, here + [i], target) == None
    ensures FindInMembers(members, c, here, target)
         == Some(['/'] + Escaped(members[k].key) + FindPointer(members[k].value, here + [k], target).value)
    decreases k - c
  {
    if c < k {
      MembersUpTo(members, c + 1, k, here, target);
    }
  }

  /** The search finds the node, and the pointer spells its tokens. */
  lemma {:induction false} FindsIt(v: Json, here: Position, at: Position)
    requires IsPosition(v, at)
    ensures FindPointer(v, here, here + at) == Some(PointerText(TokensTo(v, at)))
    decreases v
  {
    hide Digits, Escaped;
    if at == [] {
      assert here + at == here;
    } else {
      var k, target := at[0], here + at;
      assert target == (here + [k]) + at[1..];
      forall i | i != k ensures !(here + [i] <= target) {
        assert (here + [i])[|here|] == i && target[|here|] == k;
      }
      match v
      case Arr(items) =>
        FindsIt(items[k], here + [k], at[1..]);
        forall i | 0 <= i < k ensures FindPointer(items[i], here + [i], target) == None {
          NotBelow(items[i], here + [i], target);
        }
        ItemsUpTo(items, 0, k, here, target);
      case Obj(members) =>
        FindsIt(members[k].value, here + [k], at[1..]);
        forall i | 0 <= i < k ensures FindPointer(members[i].value, here + [i], target) == None {
          NotBelow(members[i].value, here + [i], target);
        }
        MembersUpTo(members, 0, k, here, target);
    }
  }

  // ---------------------------------------------------------------- reading back what was written

  /** The token at p ends there or at a slash. */
  predicate TokenStops(s: string, p: nat) {
    p == |s| || (p < |s| && s[p] == '/')
  }

  lemma EscapedParts(k: string)
    requires k != []
    ensures Escaped(k) == Escaped(k[..1]) + Escaped(k[1..])
    ensures Escaped(k[..1]) == if k[0] == '/' then "~1" else if k[0] == '~' then "~0" else [k[0]]
  {
    assert k[..1][1..] == [];
    assert k[..1][0] == k[0];
  }

  lemma LowerKeeps(c: char)
    ensures Lower('~') == '~' && Lower('/') == '/'
    ensures Lower(c) == '~' ==> c == '~'
    ensures Lower(c) == '/' ==> c == '/'
  {
  }

  lemma FoldParts(a: string, b: string)
    ensures a != [] && b != [] ==> (Fold(a) == Fold(b) <==> Lower(a[0]) == Lower(b[0]) && Fold(a[1..]) == Fold(b[1..]))
    ensures Fold(a) == Fold(b) ==> |a| == |b|
  {
    if a != [] && b != [] {
      assert Fold(a) == [Lower(a[0])] + Fold(a[1..]);
      assert Fold(b) == [Lower(b[0])] + Fold(b[1..]);
      assert Fold(a) == Fold(b) ==> Fold(a)[0] == Fold(b)[0] && Fold(a)[1..] == Fold(b)[1..];
    }
  }

  /** A name matches an escaped name exactly if they are equal ignoring case. */
  lemma {:induction false} MatchesEscaped(a: string, k: string, s: string, p: nat)
    requires Stands(s, p, Escaped(k)) && TokenStops(s, p + |Escaped(k)|)
    ensures Matches(a, s, p) <==> Fold(a) == Fold(k)
    decreases |k|
  {
    hide Fold, Escaped, Stands, Lower;
    FoldParts(a, k);
    if k != [] {
      EscapedParts(k);
      var c := Escaped(k[..1]);
      StandsParts(s, p, c, Escaped(k[1..]));
      CharsAt(s, p, c);
      LowerKeeps(k[0]);
      if a != [] {
        LowerKeeps(a[0]);
        MatchesEscaped(a[1..], k[1..], s, p + |c|);
      }
    } else {
      EscapedNothing();
    }
  }

  lemma EscapedNothing()
    ensures Escaped("") == ""
  {
  }

  lemma CharsAt(s: string, p: nat, t: string)
    requires Stands(s, p, t)
    ensures p + |t| <= |s| && forall i :: 0 <= i < |t| ==> s[p + i] == t[i]
  {
    assert forall i :: 0 <= i < |t| ==> s[p..p + |t|][i] == t[i];
  }

  lemma {:induction false} EscapedHasNoSlash(k: string)
    ensures forall i :: 0 <= i < |Escaped(k)| ==> Escaped(k)[i] != '/'
    decreases |k|
  {
    if k != [] {
      EscapedHasNoSlash(k[1..]);
    }
  }

  lemma {:induction false} TokenEndIs(s: string, p: nat, n: nat)
    requires TokenStops(s, p + n) && p + n <= |s| && forall i :: p <= i < p + n ==> s[i] != '/'
    ensures TokenEnd(s, p) == p + n
    decreases n
  {
    if n > 0 {
      TokenEndIs(s, p + 1, n - 1);
    }
  }

  /** An escaped name, up to the next slash, is a whole token. */
  lemma EscapedIsToken(s: string, p: nat, k: string)
    requires Stands(s, p, Escaped(k)) && TokenStops(s, p + |Escaped(k)|)
    ensures TokenEnd(s, p) == p + |Escaped(k)| <= |s|
  {
    hide Escaped, Stands, TokenEnd;
    CharsAt(s, p, Escaped(k));
    EscapedHasNoSlash(k);
    forall i | p <= i < p + |Escaped(k)| ensures s[i] != '/' {
      assert s[p + (i - p)] == Escaped(k)[i - p];
    }
    TokenEndIs(s, p, |Escaped(k)|);
  }

  /** The first member of that name, ignoring case, or |members|. */
  function First(members: seq<Member>, f: string): (j: nat)
    ensures j <= |members|
    ensures forall i :: 0 <= i < j ==> Fold(members[i].key) != f
    ensures j < |members| ==> Fold(members[j].key) == f
  {
    if members == [] || Fold(members[0].key) == f then 0 else 1 + First(members[1..], f)
  }

  lemma {:induction false} FindIsFirst(members: seq<Member>, k: string, s: string, p: nat)
    requires Stands(s, p, Escaped(k)) && TokenStops(s, p + |Escaped(k)|)
    ensures FindMember(members, s, p) == First(members, Fold(k))
  {
    hide Fold, Escaped, Stands, Matches;
    if members != [] {
      MatchesEscaped(members[0].key, k, s, p);
      FindIsFirst(members[1..], k, s, p);
    }
  }

  lemma OneDigit(d: nat, s: string, q: nat, which: nat)
    requires d < 10 && q < |s| && s[q] == '0' + d as char
    ensures ReadIndex(s, q, which) == ReadIndex(s, q + 1, 10 * which + d)
  {
  }

  lemma {:induction false} DigitsRead(n: nat, s: string, p: nat)
    requires Stands(s, p, Digits(n))
    ensures ReadIndex(s, p, 0) == ReadIndex(s, p + |Digits(n)|, n)
    decreases n
  {
    hide Stands, ReadIndex;
    CharsAt(s, p, Digits(n));
    if n < 10 {
      assert s[p + 0] == Digits(n)[0];
      OneDigit(n, s, p, 0);
    } else {
      var last := ['0' + (n % 10) as char];
      StandsParts(s, p, Digits(n / 10), last);
      DigitsRead(n / 10, s, p);
      var q := p + |Digits(n / 10)|;
      CharsAt(s, q, last);
      assert s[q + 0] == last[0];
      OneDigit(n % 10, s, q, n / 10);
    }
  }

  lemma PointerCons(ts: seq<Token>)
    requires ts != []
    ensures PointerText(ts) == ['/'] + (TokenText(ts[0]) + PointerText(ts[1..]))
  {
    hide TokenText;
  }

  /** What stands behind a slash: a token, then the rest of the pointer. */
  lemma PointerParts(s: string, p: nat, ts: seq<Token>)
    requires ts != [] && Stands(s, p, PointerText(ts)) && p + |PointerText(ts)| == |s|
    ensures p < |s| && s[p] == '/' && Stands(s, p + 1, TokenText(ts[0]))
    ensures var q := p + 1 + |TokenText(ts[0])|;
      Stands(s, q, PointerText(ts[1..])) && q + |PointerText(ts[1..])| == |s| && TokenStops(s, q)
  {
    hide TokenText, Stands, PointerText;
    var token, rest := TokenText(ts[0]), PointerText(ts[1..]);
    PointerCons(ts);
    StandsParts(s, p, ['/'], token + rest);
    StandsParts(s, p + 1, token, rest);
    CharsAt(s, p, ['/']);
    PointerOpens(ts[1..]);
    CharsAt(s, p + 1 + |token|, rest);
  }

  lemma PointerOpens(ts: seq<Token>)
    ensures ts != [] ==> PointerText(ts) != [] && PointerText(ts)[0] == '/'
    ensures ts == [] ==> PointerText(ts) == []
  {
  }

  lemma GetItem(items: seq<Json>, s: string, p: nat)
    requires p < |s| && s[p] == '/'
    ensures var (which, q) := ReadIndex(s, p + 1, 0);
      GetPointer(Arr(items), s, p) ==
      if (q < |s| && s[q] != '/') || which >= |items| then None else On(which, GetPointer(items[which], s, q))
  {
    hide ReadIndex;
  }

  /** One token of a pointer, at an array. */
  lemma ItemStep(items: seq<Json>, s: string, p: nat, ts: seq<Token>)
    requires ts != [] && ts[0].Index? && Stands(s, p, PointerText(ts)) && p + |PointerText(ts)| == |s|
    ensures p + 1 + |TokenText(ts[0])| <= |s|
    ensures GetPointer(Arr(items), s, p) ==
      if ts[0].n < |items| then On(ts[0].n, GetPointer(items[ts[0].n], s, p + 1 + |TokenText(ts[0])|)) else None
  {
    hide Digits, Stands, ReadIndex, PointerText, GetPointer;
    PointerParts(s, p, ts);
    GetItem(items, s, p);
    var q := p + 1 + |TokenText(ts[0])|;
    DigitsRead(ts[0].n, s, p + 1);
    CharsAt(s, p + 1, TokenText(ts[0]));
    StopsReading(s, q, ts[0].n);
  }

  lemma StopsReading(s: string, q: nat, n: nat)
    requires TokenStops(s, q)
    ensures ReadIndex(s, q, n) == (n, q)
  {
  }

  lemma GetMember(members: seq<Member>, s: string, p: nat)
    requires p < |s| && s[p] == '/'
    ensures var j := FindMember(members, s, p + 1);
      GetPointer(Obj(members), s, p) ==
      if j == |members| then None else On(j, GetPointer(members[j].value, s, TokenEnd(s, p + 1)))
  {
    hide FindMember, TokenEnd;
  }

  /** One token of a pointer, at an object. */
  lemma MemberStep(members: seq<Member>, s: string, p: nat, ts: seq<Token>)
    requires ts != [] && ts[0].Name? && Stands(s, p, PointerText(ts)) && p + |PointerText(ts)| == |s|
    ensures p + 1 + |TokenText(ts[0])| <= |s|
    ensures var j := First(members, Fold(ts[0].name));
      GetPointer(Obj(members), s, p) ==
      if j < |members| then On(j, GetPointer(members[j].value, s, p + 1 + |TokenText(ts[0])|)) else None
  {
    hide Escaped, Stands, FindMember, Fold, PointerText, TokenEnd, First, GetPointer;
    PointerParts(s, p, ts);
    GetMember(members, s, p);
    var k := ts[0].name;
    FindIsFirst(members, k, s, p + 1);
    EscapedIsToken(s, p + 1, k);
  }

  /** At every object on the way the member taken is the first of its name, ignoring case. */
  predicate FirstOfItsName(v: Json, at: Position)
    requires IsPosition(v, at)
    decreases v
  {
    at == [] ||
    match v
    case Arr(items) => FirstOfItsName(items[at[0]], at[1..])
    case Obj(members) =>
      && (forall i :: 0 <= i < at[0] ==> Fold(members[i].key) != Fold(members[at[0]].key))
      && FirstOfItsName(members[at[0]].value, at[1..])
  }

  lemma {:induction false} ReadsBack(v: Json, at: Position, s: string, p: nat)
    requires IsPosition(v, at) && Stands(s, p, PointerText(TokensTo(v, at)))
    requires p + |PointerText(TokensTo(v, at))| == |s|
    ensures GetPointer(v, s, p) == Some(at) <==> FirstOfItsName(v, at)
    decreases v
  {
    hide GetPointer, Stands, PointerText, Fold;
    var ts := TokensTo(v, at);
    if at == [] {
      PointerOpens(ts);
      GetNothing(v, s, p);
    } else {
      PointerParts(s, p, ts);
      var q := p + 1 + |TokenText(ts[0])|;
      assert at == [at[0]] + at[1..];
      match v
      case Arr(items) =>
        ItemStep(items, s, p, ts);
        ReadsBack(items[at[0]], at[1..], s, q);
        OnIs(at[0], GetPointer(items[at[0]], s, q), at);
      case Obj(members) =>
        MemberStep(members, s, p, ts);
        var j := First(members, Fold(members[at[0]].key));
        ReadsBack(members[at[0]].value, at[1..], s, q);
        OnIs(j, GetPointer(members[j].value, s, q), at);
    }
  }

  lemma GetNothing(v: Json, s: string, p: nat)
    requires p == |s|
    ensures GetPointer(v, s, p) == Some([])
  {
  }

  lemma OnIs(n: nat, r: Option<Position>, at: Position)
    requires at != []
    ensures On(n, r) == Some(at) <==> n == at[0] && r == Some(at[1..])
  {
    assert at == [at[0]] + at[1..];
    if r.Some? {
      assert ([n] + r.value)[1..] == r.value;
    }
  }

  /** RFC 6901: reading the pointer to a node leads to that node exactly if no earlier sibling, there or at
      an object further up, has the same name ignoring case. */
  lemma PointerInverse(v: Json, at: Position)
    requires IsPosition(v, at)
    ensures FindPointer(v, [], at).Some?
    ensures GetPointer(v, FindPointer(v, [], at).value, 0) == Some(at) <==> FirstOfItsName(v, at)
  {
    hide GetPointer, FindPointer, PointerText;
    FindsIt(v, [], at);
    assert [] + at == at;
    var s := PointerText(TokensTo(v, at));
    assert s[0..|s|] == s;
    ReadsBack(v, at, s, 0);
  }

  lemma {:induction false} WellNamedIsFirst(v: Json, at: Position)
    requires WellNamed(v) && IsPosition(v, at)
    ensures FirstOfItsName(v, at)
    decreases v
  {
    if at != [] {
      match v
      case Arr(items) => WellNamedIsFirst(items[at[0]], at[1..]);
      case Obj(members) => WellNamedIsFirst(members[at[0]].value, at[1..]);
    }
  }

  /** With sibling names that differ ignoring case every node is found again. */
  lemma EveryNodeFound(v: Json, at: Position)
    requires WellNamed(v) && IsPosition(v, at)
    ensures FindPointer(v, [], at).Some? && GetPointer(v, FindPointer(v, [], at).value, 0) == Some(at)
  {
    PointerInverse(v, at);
    WellNamedIsFirst(v, at);
  }
}
