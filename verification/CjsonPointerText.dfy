/** Which texts are JSON Pointers (RFC 6901 section 3), and what the program makes of the others. */
module CjsonPointerText {
  import opened Wrappers
  import opened CjsonKeys
  import opened CjsonString
  import opened CjsonText
  import opened CjsonPointer

  /** The tokens of a pointer as written; at an array they have yet to be read as numbers. */
  function PathOf(ks: seq<string>): (ts: seq<Token>)
    ensures |ts| == |ks| && forall i :: 0 <= i < |ks| ==> ts[i] == Name(ks[i])
  {
    seq(|ks|, i requires 0 <= i < |ks| => Name(ks[i]))
  }

  lemma PathParts(ks: seq<string>)
    requires ks != []
    ensures PathOf(ks)[1..] == PathOf(ks[1..])
    ensures var n := |ks| - 1; PathOf(ks) == PathOf(ks[..n]) + [Name(ks[n])]
  {
  }

  function PathText(ks: seq<string>): string {
    PointerText(PathOf(ks))
  }

  /** A reference token: ~ only in ~0 and ~1, and no slash. */
  function Unescaped(t: string): Option<string> {
    if t == [] then Some([])
    else if t[0] == '/' then None
    else if t[0] != '~' then Onto([t[0]], Unescaped(t[1..]))
    else if |t| > 1 && t[1] == '0' then Onto(['~'], Unescaped(t[2..]))
    else if |t| > 1 && t[1] == '1' then Onto(['/'], Unescaped(t[2..]))
    else None
  }

  /** The reference tokens from p on, each behind a slash. */
  function TokensAt(s: string, p: nat): Option<seq<string>>
    requires p <= |s|
    decreases |s| - p
  {
    if p == |s| then Some([])
    else if s[p] != '/' then None
    else
      var q := TokenEnd(s, p + 1);
      match (Unescaped(s[p + 1..q]), TokensAt(s, q))
      case (Some(k), Some(ks)) => Some([k] + ks)
      case _ => None
  }

  /** The reference tokens of a JSON Pointer; None for any other text. */
  function Tokens(s: string): Option<seq<string>> {
    TokensAt(s, 0)
  }

  lemma {:induction false} UnescapedEscaped(k: string)
    ensures Unescaped(Escaped(k)) == Some(k)
    decreases |k|
  {
    if k != [] {
      EscapedParts(k);
      var c, rest := Escaped(k[..1]), Escaped(k[1..]);
      UnescapedEscaped(k[1..]);
      assert (c + rest)[|c|..] == rest;
      assert Unescaped(c + rest) == Onto([k[0]], Unescaped(rest));
      assert [k[0]] + k[1..] == k;
    }
  }

  lemma {:induction false} EscapedUnescaped(t: string)
    requires Unescaped(t).Some?
    ensures Escaped(Unescaped(t).value) == t
    decreases |t|
  {
    if t != [] {
      var n := if t[0] == '~' then 2 else 1;
      EscapedUnescaped(t[n..]);
      var k := Unescaped(t).value;
      EscapedParts(k);
      assert k == k[..1] + Unescaped(t[n..]).value && k[1..] == Unescaped(t[n..]).value;
      assert t == t[..n] + t[n..];
    }
  }

  lemma {:induction false} EndsAtSlash(s: string, p: nat)
    requires p <= |s|
    ensures TokenStops(s, TokenEnd(s, p))
    ensures forall i :: p <= i < TokenEnd(s, p) ==> s[i] != '/'
    decreases |s| - p
  {
    if p < |s| && s[p] != '/' {
      EndsAtSlash(s, p + 1);
    }
  }

  /** An escaped name, up to the next slash, is read as a token. */
  lemma TokenRead(s: string, p: nat, k: string)
    requires Stands(s, p, Escaped(k)) && TokenStops(s, p + |Escaped(k)|)
    ensures TokenEnd(s, p) == p + |Escaped(k)| <= |s| && Unescaped(s[p..p + |Escaped(k)|]) == Some(k)
  {
    hide Escaped, Unescaped, TokenEnd;
    EscapedIsToken(s, p, k);
    UnescapedEscaped(k);
  }

  /** The tokens of the text of a pointer are those it was written from. */
  lemma {:induction false} TokensOfPath(s: string, p: nat, ks: seq<string>)
    requires Stands(s, p, PathText(ks)) && p + |PathText(ks)| == |s|
    ensures TokensAt(s, p) == Some(ks)
    decreases |ks|
  {
    hide Stands, PointerText, Escaped, Unescaped, TokenEnd;
    PointerOpens(PathOf(ks));
    if ks != [] {
      PathParts(ks);
      PointerParts(s, p, PathOf(ks));
      TokenRead(s, p + 1, ks[0]);
      TokensOfPath(s, p + 1 + |Escaped(ks[0])|, ks[1..]);
      assert [ks[0]] + ks[1..] == ks;
    }
  }

  lemma PathCons(k: string, ks: seq<string>)
    ensures PathText([k] + ks) == ['/'] + (Escaped(k) + PathText(ks))
  {
    hide PointerText, Escaped;
    PathParts([k] + ks);
    assert ([k] + ks)[1..] == ks;
    PointerCons(PathOf([k] + ks));
  }

  lemma CutAt(s: string, p: nat, q: nat)
    requires p < q <= |s|
    ensures s[p..] == [s[p]] + (s[p + 1..q] + s[q..])
  {
  }

  /** A text with tokens is the text of those tokens. */
  lemma {:induction false} PathOfTokens(s: string, p: nat)
    requires p <= |s| && TokensAt(s, p).Some?
    ensures s[p..] == PathText(TokensAt(s, p).value)
    decreases |s| - p
  {
    hide Escaped, Unescaped, PathText;
    if p < |s| {
      var q := TokenEnd(s, p + 1);
      var k, ks := Unescaped(s[p + 1..q]).value, TokensAt(s, q).value;
      EscapedUnescaped(s[p + 1..q]);
      PathOfTokens(s, q);
      PathCons(k, ks);
      CutAt(s, p, q);
    } else {
      NoPath();
    }
  }

  lemma NoPath()
    ensures PathText([]) == []
  {
  }

  /** A text is a JSON Pointer with these tokens exactly if it is their text. */
  lemma PointerTexts(s: string, ks: seq<string>)
    ensures Tokens(s) == Some(ks) <==> s == PathText(ks)
  {
    hide TokensAt, PathText;
    assert s[0..] == s && s[0..|s|] == s;
    if s == PathText(ks) {
      TokensOfPath(s, 0, ks);
    }
    if Tokens(s).Some? {
      PathOfTokens(s, 0);
    }
  }

  // ---------------------------------------------------------------- texts that are no pointers

  /** A name matches only what is a token. */
  lemma {:induction false} MatchedIsToken(a: string, s: string, p: nat)
    requires p <= |s| && Matches(a, s, p)
    ensures Unescaped(s[p..TokenEnd(s, p)]).Some?
    decreases |a|
  {
    var q := TokenEnd(s, p);
    EndsAtSlash(s, p);
    if p < |s| && s[p] != '/' {
      var n := if s[p] == '~' then 2 else 1;
      MatchedIsToken(a[1..], s, p + n);
      assert TokenEnd(s, p + n) == q;
      assert s[p..q][0] == s[p] && s[p..q][n..] == s[p + n..q];
    }
  }

  lemma {:induction false} DigitsAreToken(s: string, p: nat, which: nat)
    requires p <= |s| && TokenStops(s, ReadIndex(s, p, which).1)
    ensures ReadIndex(s, p, which).1 == TokenEnd(s, p)
    ensures Unescaped(s[p..TokenEnd(s, p)]).Some?
    decreases |s| - p
  {
    if p < |s| && IsDigit(s[p]) {
      DigitsAreToken(s, p + 1, 10 * which + (s[p] as nat - '0' as nat));
      var q := TokenEnd(s, p);
      assert s[p..q][0] == s[p] && s[p..q][1..] == s[p + 1..q];
    }
  }

  lemma {:induction false} FoundMatches(members: seq<Member>, s: string, p: nat)
    ensures var j := FindMember(members, s, p); j < |members| ==> Matches(members[j].key, s, p)
  {
    if members != [] && !Matches(members[0].key, s, p) {
      FoundMatches(members[1..], s, p);
    }
  }

  /** What starts with a slash and is no pointer leads nowhere: at the latest at the token that is none. */
  lemma {:induction false} BadPointerFindsNothing(v: Json, s: string, p: nat)
    requires p < |s| && s[p] == '/' && TokensAt(s, p).None?
    ensures GetPointer(v, s, p) == None
    decreases v
  {
    hide Unescaped, Matches, ReadIndex;
    var q := TokenEnd(s, p + 1);
    EndsAtSlash(s, p + 1);
    match v
    case Arr(items) =>
      var (which, r) := ReadIndex(s, p + 1, 0);
      if TokenStops(s, r) && which < |items| {
        DigitsAreToken(s, p + 1, 0);
        BadPointerFindsNothing(items[which], s, q);
      }
    case Obj(members) =>
      var j := FindMember(members, s, p + 1);
      if j < |members| {
        FoundMatches(members, s, p + 1);
        MatchedIsToken(members[j].key, s, p + 1);
        BadPointerFindsNothing(members[j].value, s, q);
      }
    case _ =>
  }
}
