/** The loops of cJSON_Utils that read, write and follow JSON Pointers, against the functions that say what
    they compute. */
module CjsonPointerCode {
  import opened Wrappers
  import opened CjsonKeys
  import opened CjsonString
  import opened CjsonText
  import opened CjsonDoc
  import opened CjsonPointer
  import opened CjsonCompare
  import opened CjsonPatch

  lemma MatchesStep(a: string, i: nat, s: string, p: nat)
    requires i <= |a|
    ensures i < |a| && p < |s| && s[p] != '/' && s[p] == '~' ==>
      (Matches(a[i..], s, p) <==>
        && p + 1 < |s| && ((s[p + 1] == '0' && a[i] == '~') || (s[p + 1] == '1' && a[i] == '/'))
        && Matches(a[i + 1..], s, p + 2))
    ensures i < |a| && p < |s| && s[p] != '/' && s[p] != '~' ==>
      (Matches(a[i..], s, p) <==> Lower(a[i]) == Lower(s[p]) && Matches(a[i + 1..], s, p + 1))
    ensures i == |a| || p >= |s| || s[p] == '/' ==>
      (Matches(a[i..], s, p) <==> ((p < |s| && s[p] != '/') == (i < |a|)))
  {
    hide Lower;
    assert i < |a| ==> a[i..][1..] == a[i + 1..];
  }

  /** cJSONUtils_Pstrcasecmp: whether the name is the one of the token at p. */
  method NameMatches(a: string, s: string, p: nat) returns (same: bool)
    ensures same == Matches(a, s, p)
  {
    hide Matches, Lower;
    var i: nat, e: nat := 0, p;
    assert a[0..] == a;
    while i < |a| && e < |s| && s[e] != '/'
      invariant i <= |a| && Matches(a, s, p) == Matches(a[i..], s, e)
      decreases |a| - i
    {
      MatchesStep(a, i, s, e);
      if s[e] == '~' {
        if !(e + 1 < |s| && s[e + 1] == '0' && a[i] == '~') && !(e + 1 < |s| && s[e + 1] == '1' && a[i] == '/') {
          return false;
        }
        e := e + 1;
      } else if Lower(a[i]) != Lower(s[e]) {
        return false;
      }
      i, e := i + 1, e + 1;
    }
    MatchesStep(a, i, s, e);
    return (e < |s| && s[e] != '/') == (i < |a|);
  }

  lemma EscapedStep(s: string, i: nat)
    requires i <= |s|
    ensures i == |s| ==> Escaped(s[i..]) == ""
    ensures i < |s| ==>
      Escaped(s[i..]) == (if s[i] == '/' then "~1" else if s[i] == '~' then "~0" else [s[i]]) + Escaped(s[i + 1..])
  {
    assert i < |s| ==> s[i..][1..] == s[i + 1..];
  }

  /** cJSONUtils_PointerEncodedstrlen */
  method EncodedLength(s: string) returns (l: nat)
    ensures l == |Escaped(s)|
  {
    hide Escaped;
    l := 0;
    var i := 0;
    assert s[0..] == s;
    while i < |s|
      invariant i <= |s| && |Escaped(s)| == l + |Escaped(s[i..])|
    {
      EscapedStep(s, i);
      if s[i] == '~' || s[i] == '/' {
        l := l + 1;
      }
      i, l := i + 1, l + 1;
    }
    EscapedStep(s, i);
  }

  /** What has been written so far. */
  ghost predicate Written(d: array<char>, at: nat, n: nat, t: string)
    reads d
  {
    at <= n <= d.Length && d[at..n] == t
  }

  /** One store of cJSONUtils_PointerEncodedstrcpy. */
  method Store(d: array<char>, ghost at: nat, n: nat, c: char, ghost t: string)
    requires Written(d, at, n, t) && n < d.Length
    modifies d
    ensures Written(d, at, n + 1, t + [c])
    ensures forall k :: 0 <= k < d.Length && k != n ==> d[k] == old(d[k])
  {
    d[n] := c;
  }

  lemma StoresMore(t: string, u: string, v: string)
    ensures (t + u) + v == t + (u + v)
    ensures t + [] == t && [] + t == t
  {
  }

  /** One character of the name. */
  method EncodeOne(d: array<char>, ghost at: nat, n: nat, c: char, ghost t: string) returns (n': nat)
    requires Written(d, at, n, t) && at <= n && n + |Escaped([c])| <= d.Length
    modifies d
    ensures n' == n + |Escaped([c])| && Written(d, at, n', t + Escaped([c]))
    ensures forall k :: 0 <= k < at ==> d[k] == old(d[k])
  {
    hide Escaped, Written;
    EscapedOne(c);
    if c == '/' {
      Store(d, at, n, '~', t);
      Store(d, at, n + 1, '1', t + "~");
      StoresMore(t, "~", "1");
      assert "~" + "1" == "~1";
      n' := n + 2;
    } else if c == '~' {
      Store(d, at, n, '~', t);
      Store(d, at, n + 1, '0', t + "~");
      StoresMore(t, "~", "0");
      assert "~" + "0" == "~0";
      n' := n + 2;
    } else {
      Store(d, at, n, c, t);
      n' := n + 1;
    }
  }

  lemma EscapedOne(c: char)
    ensures Escaped([c]) == if c == '/' then "~1" else if c == '~' then "~0" else [c]
  {
    assert [c][1..] == [];
  }

  /** cJSONUtils_PointerEncodedstrcpy: the escaped name and a NUL from `at` on. */
  method EncodeInto(d: array<char>, at: nat, s: string)
    requires at + |Escaped(s)| < d.Length
    modifies d
    ensures d[at..at + |Escaped(s)|] == Escaped(s) && d[at + |Escaped(s)|] == '\0'
    ensures forall k :: 0 <= k < at ==> d[k] == old(d[k])
  {
    hide Escaped, Written;
    var i, n := 0, at;
    ghost var t: string := [];
    WrittenNone(d, at);
    assert s[0..] == s;
    StoresMore(Escaped(s), [], []);
    while i < |s|
      invariant i <= |s| && n == at + |t| && Written(d, at, n, t) && t + Escaped(s[i..]) == Escaped(s)
      invariant forall k :: 0 <= k < at ==> d[k] == old(d[k])
    {
      EscapedStep(s, i);
      EscapedOne(s[i]);
      StoresMore(t, Escaped([s[i]]), Escaped(s[i + 1..]));
      n := EncodeOne(d, at, n, s[i], t);
      t := t + Escaped([s[i]]);
      i := i + 1;
    }
    EscapedStep(s, i);
    StoresMore(t, [], []);
    WrittenIs(d, at, n, t);
    d[n] := '\0';
    assert d[at..n] == t;
  }

  lemma WrittenNone(d: array<char>, at: nat)
    requires at <= d.Length
    ensures Written(d, at, at, [])
  {
  }

  lemma WrittenIs(d: array<char>, at: nat, n: nat, t: string)
    requires Written(d, at, n, t)
    ensures at <= n <= d.Length && d[at..n] == t
  {
  }

  // ---------------------------------------------------------------- decoding in place

  /** The read position at the end: at the NUL, or behind it. */
  function DecodeRead(s: string): nat {
    if s == [] then 0
    else if s[0] != '~' then 1 + DecodeRead(s[1..])
    else if |s| == 1 then 2
    else 2 + DecodeRead(s[2..])
  }

  /** The program reads past the end of the text exactly if a lone tilde stands there. */
  lemma {:induction false} DecodePastExactly(s: string)
    ensures DecodeRead(s) >= |s|
    ensures DecodeRead(s) > |s| <==> Decoded(s).None?
    decreases |s|
  {
    if s != [] && (s[0] != '~' || |s| > 1) {
      DecodePastExactly(s[if s[0] == '~' then 2 else 1..]);
    }
  }

  /** How far one round reads. */
  function RoundDecodes(s: string): nat
    requires s != []
  {
    if s[0] == '~' then 2 else 1
  }

  lemma DecodedStep(s: string)
    requires s != []
    ensures var e := RoundDecodes(s);
      if e > |s| then DecodeRead(s) == e
      else && DecodeRead(s) == e + DecodeRead(s[e..])
           && Decoded(s) == Onto([if e == 1 then s[0] else if s[1] == '0' then '~' else '/'], Decoded(s[e..]))
  {
  }

  /** One round: a byte, or a tilde and the byte behind it, becomes one byte further to the front. */
  method DecodeOne(text: array<char>, r: nat, w: nat, ghost n: nat) returns (r': nat)
    requires w <= r < n && Unread(text, r, n)
    modifies text
    ensures r' == r + RoundDecodes(old(text[r..n]))
    ensures r' <= n ==>
      && w + 1 <= r' && Unread(text, r', n) && text[r'..n] == old(text[r..n])[r' - r..]
      && Onto(text[..w + 1], Decoded(text[r'..n])) == Onto(old(text[..w]), Decoded(old(text[r..n])))
  {
    hide Decoded, DecodeRead;
    ghost var s, before := text[r..n], text[..w];
    DecodedStep(s);
    assert s[0] == text[r] && (r + 1 < n ==> s[1] == text[r + 1]);
    var c := text[r];
    r' := r;
    if c == '~' {
      r' := r + 1;
      c := if text[r'] == '0' then '~' else '/';
    }
    r' := r' + 1;
    text[w] := c;
    if r' <= n {
      OntoTwice(before, [c], Decoded(s[r' - r..]));
      assert text[r'..n] == s[r' - r..];
      assert text[..w + 1] == before + [c];
    }
  }

  /** cJSONUtils_InplaceDecodePointerString on a C string of length n.  The read position ends at the NUL exactly if
      no lone tilde stands at the end, and then the buffer holds the decoded text; else the program reads on behind
      the NUL, and the model stops there. */
  method DecodeInPlace(text: array<char>, n: nat) returns (r: nat)
    requires Unread(text, 0, n)
    modifies text
    ensures r == DecodeRead(old(text[..n]))
    ensures r <= n <==> Decoded(old(text[..n])).Some?
    ensures r <= n ==> var m := Decoded(old(text[..n])).value; |m| <= n && text[..|m|] == m && text[|m|] == '\0'
  {
    hide Decoded;
    ghost var s := text[..n];
    var w: nat := 0;
    r := 0;
    assert text[..0] == [] && text[0..n] == s;
    OntoNothing(Decoded(s));
    DecodePastExactly(s);
    while r <= n && text[r] != '\0'
      invariant DecodeRead(s) == if r <= n then r + DecodeRead(text[r..n]) else r
      invariant r <= n ==> w <= r && Unread(text, r, n) && Decoded(s) == Onto(text[..w], Decoded(text[r..n]))
      decreases n - r
    {
      DecodedStep(text[r..n]);
      r := DecodeOne(text, r, w, n);
      w := w + 1;
    }
    if r <= n {
      assert text[r..n] == [];
      DecodedNothing();
      assert text[..w] + [] == text[..w];
      text[w] := '\0';
    }
  }

  lemma DecodedNothing()
    ensures Decoded("") == Some("")
  {
  }

  // ---------------------------------------------------------------- following a pointer

  function Beyond(at: Position, r: Option<Position>): Option<Position> {
    match r
    case None => None
    case Some(path) => Some(at + path)
  }

  lemma BeyondStep(at: Position, n: nat, r: Option<Position>)
    ensures Beyond(at, On(n, r)) == Beyond(at + [n], r)
    ensures Beyond([], r) == r && Beyond(at, Some([])) == Some(at)
  {
    if r.Some? {
      assert at + ([n] + r.value) == at + [n] + r.value;
      assert [] + r.value == r.value;
    }
    assert at + [] == at;
  }

  /** The member loop of cJSONUtils_GetPointer. */
  method SearchMember(members: seq<Member>, s: string, p: nat) returns (j: nat)
    ensures j == FindMember(members, s, p)
  {
    hide FindMember;
    j := 0;
    assert members[0..] == members;
    while j < |members|
      invariant j <= |members| && FindMember(members, s, p) == j + FindMember(members[j..], s, p)
    {
      FindStep(members, j, s, p);
      var same := NameMatches(members[j].key, s, p);
      if same {
        return;
      }
      j := j + 1;
    }
    FindStep(members, j, s, p);
  }

  lemma FindStep(members: seq<Member>, j: nat, s: string, p: nat)
    requires j <= |members|
    ensures j == |members| ==> FindMember(members[j..], s, p) == 0
    ensures j < |members| ==>
      FindMember(members[j..], s, p)
      == if Matches(members[j].key, s, p) then 0 else 1 + FindMember(members[j + 1..], s, p)
  {
    hide Matches;
    assert j < |members| ==> members[j..][1..] == members[j + 1..];
  }

  method ParseIndex(s: string, p: nat) returns (which: nat, q: nat)
    requires p <= |s|
    ensures (which, q) == ReadIndex(s, p, 0)
  {
    which, q := 0, p;
    while q < |s| && IsDigit(s[q])
      invariant p <= q <= |s| && ReadIndex(s, p, 0) == ReadIndex(s, q, which)
    {
      which, q := 10 * which + (s[q] as nat - '0' as nat), q + 1;
    }
  }

  method SkipToken(s: string, p: nat) returns (q: nat)
    requires p <= |s|
    ensures q == TokenEnd(s, p)
  {
    q := p;
    while q < |s| && s[q] != '/'
      invariant p <= q <= |s| && TokenEnd(s, p) == TokenEnd(s, q)
    {
      q := q + 1;
    }
  }

  /** cJSONUtils_GetPointer: one token of the pointer and one level of the document at a time. */
  method FollowPointer(v: Json, s: string) returns (r: Option<Position>)
    ensures r == GetPointer(v, s, 0)
  {
    hide GetPointer, ReadIndex, FindMember, TokenEnd;
    var node: Json, p: nat, at: Position := v, 0, [];
    BeyondStep([], 0, GetPointer(v, s, 0));
    while p < |s| && s[p] == '/'
      invariant p <= |s| && GetPointer(v, s, 0) == Beyond(at, GetPointer(node, s, p))
      decreases node
    {
      match node
      case Arr(items) =>
        GetItem(items, s, p);
        var which, q := ParseIndex(s, p + 1);
        if q < |s| && s[q] != '/' {
          return None;
        }
        if which >= |items| {
          return None;
        }
        BeyondStep(at, which, GetPointer(items[which], s, q));
        node, p, at := items[which], q, at + [which];
      case Obj(members) =>
        GetMember(members, s, p);
        var j := SearchMember(members, s, p + 1);
        if j == |members| {
          return None;
        }
        var q := SkipToken(s, p + 1);
        BeyondStep(at, j, GetPointer(members[j].value, s, q));
        node, p, at := members[j].value, q, at + [j];
      case _ =>
        GetLeaf(node, s, p);
        return None;
    }
    GetEnds(node, s, p);
    BeyondStep(at, 0, None);
    return Some(at);
  }

  lemma GetLeaf(v: Json, s: string, p: nat)
    requires p < |s| && s[p] == '/' && !v.Arr? && !v.Obj?
    ensures GetPointer(v, s, p) == None
  {
  }

  lemma GetEnds(v: Json, s: string, p: nat)
    requires p <= |s| && (p == |s| || s[p] != '/')
    ensures GetPointer(v, s, p) == Some([])
  {
  }
}
