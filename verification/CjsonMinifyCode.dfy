/** cJSON_Minify as it runs: two pointers into one buffer, and where the reading one goes. */
module CjsonMinifyCode {
  import opened Wrappers
  import opened CjsonKeys
  import opened CjsonString
  import opened CjsonText
  import opened CjsonMinify
  import opened CjsonPointerCode

  // ---------------------------------------------------------------- where the program reads

  /** Where the loop over a comment leaves the read position, p being in the comment. */
  function CommentRead(s: string, p: nat): (e: nat)
    ensures e >= p + 2
    decreases |s| - p
  {
    if p >= |s| then p + 2
    else if s[p] == '*' && p + 1 < |s| && s[p + 1] == '/' then p + 2
    else CommentRead(s, p + 1)
  }

  /** Where copying a literal leaves it: behind the closing quote, or at the first place behind the NUL. */
  function LiteralRead(s: string, p: nat): (e: nat)
    ensures e >= p
    decreases |s| - p
  {
    if p > |s| then p
    else if p == |s| || s[p] == '\"' then p + 1
    else LiteralRead(s, if s[p] == '\\' then p + 2 else p + 1)
  }

  /** How far one round of the main loop reads. */
  function RoundRead(s: string): (e: nat)
    requires s != []
    ensures e >= 1
  {
    if s[0] == '/' && |s| > 1 && s[1] == '/' then LineEnding(s, 2)
    else if s[0] == '/' && |s| > 1 && s[1] == '*' then CommentRead(s, 0)
    else if s[0] == '\"' then LiteralRead(s, 1)
    else 1
  }

  /** The read position at the end: at the NUL, or at the first place behind it. */
  function ReadTo(s: string): nat
    decreases |s|
  {
    if s == [] then 0
    else
      var e := RoundRead(s);
      if e > |s| then e else e + ReadTo(s[e..])
  }

  lemma {:induction false} CommentReads(s: string, p: nat)
    requires p <= |s|
    ensures CommentEnd(s, p).None? <==> CommentRead(s, p) > |s|
    ensures CommentEnd(s, p).Some? ==> CommentRead(s, p) == CommentEnd(s, p).value
    decreases |s| - p
  {
    if p < |s| {
      CommentReads(s, p + 1);
    }
  }

  lemma {:induction false} LiteralReads(s: string, p: nat)
    requires p <= |s| + 1
    ensures LiteralEnd(s, p).None? <==> LiteralRead(s, p) > |s|
    ensures LiteralEnd(s, p).Some? ==> LiteralRead(s, p) == LiteralEnd(s, p).value
    decreases |s| + 1 - p
  {
    if p < |s| && s[p] != '\"' {
      LiteralReads(s, if s[p] == '\\' then p + 2 else p + 1);
    }
  }

  /** One round reads past the NUL exactly if a comment or a literal stays open, and else does its part. */
  lemma RoundReads(s: string)
    requires s != []
    ensures RoundRead(s) > |s| ==> Minified(s).None?
    ensures var e := RoundRead(s);
      e <= |s| ==>
        Minified(s) ==
          if Passed(s) then Minified(s[e..])
          else Onto(s[..e], Minified(s[e..]))
  {
    hide LineEnding, CommentEnd, LiteralEnd, CommentRead, LiteralRead;
    LiteralReads(s, 1);
    CommentReads(s, 0);
    if |s| > 1 && s[0] == '/' && s[1] == '*' {
      CommentFrom(s);
    }
    assert s[..1] == [s[0]];
  }

  lemma CommentFrom(s: string)
    requires |s| > 1 && s[0] == '/'
    ensures CommentEnd(s, 0) == CommentEnd(s, 1)
  {
  }

  /** The program reads past the end of the text exactly if the text has no minified form. */
  lemma {:induction false} ReadsPastExactly(s: string)
    ensures ReadTo(s) >= |s|
    ensures ReadTo(s) > |s| <==> Minified(s).None?
    decreases |s|
  {
    hide RoundRead;
    if s != [] {
      RoundReads(s);
      if RoundRead(s) <= |s| {
        ReadsPastExactly(s[RoundRead(s)..]);
      }
    }
  }

  // ---------------------------------------------------------------- the program

  /** The loop over a double-slash comment. */
  method SkipLine(json: array<char>, r: nat, ghost n: nat) returns (r': nat)
    requires r + 2 <= n && Unread(json, r, n) && json[r] == '/' && json[r + 1] == '/'
    ensures r < r' <= n && r' == r + LineEnding(json[r..n], 2)
  {
    ghost var s := json[r..n];
    assert json[r] == s[0] && json[r + 1] == s[1];
    assert LineEnding(s, 2) == LineEnding(s, 0);
    r' := r;
    while json[r'] != '\0' && json[r'] != '\n'
      invariant r <= r' <= n && LineEnding(s, r' - r) == LineEnding(s, 2)
      decreases n - r'
    {
      assert r' < n ==> json[r'] == s[r' - r];
      r' := r' + 1;
    }
    assert r' < n ==> json[r'] == s[r' - r];
  }

  /** The loop over a comment; an open one takes the read position past the NUL. */
  method SkipComment(json: array<char>, r: nat, ghost n: nat) returns (r': nat)
    requires r < n && Unread(json, r, n)
    ensures r' == r + CommentRead(json[r..n], 0)
  {
    ghost var s := json[r..n];
    r' := r;
    while json[r'] != '\0' && !(json[r'] == '*' && json[r' + 1] == '/')
      invariant r <= r' <= n && CommentRead(s, r' - r) == CommentRead(s, 0)
      decreases n - r'
    {
      assert json[r'] == s[r' - r];
      assert r' + 1 < n ==> json[r' + 1] == s[r' - r + 1];
      r' := r' + 1;
    }
    assert r' < n ==> json[r'] == s[r' - r];
    assert r' + 1 < n ==> json[r' + 1] == s[r' - r + 1];
    r' := r' + 2;
  }

  /** One byte moves to the write position. */
  method Move(json: array<char>, r: nat, w: nat)
    requires w <= r < json.Length
    modifies json
    ensures json[..w + 1] == old(json[..w]) + [old(json[r])]
    ensures forall k :: r < k < json.Length ==> json[k] == old(json[k])
  {
    json[w] := json[r];
  }

  /** What the text up to the write position is. */
  ghost predicate Copies(json: array<char>, w: nat, t: string)
    reads json
  {
    w <= json.Length && json[..w] == t
  }

  lemma CopiesNothing(json: array<char>, w: nat, s: string)
    requires w <= json.Length
    ensures Copies(json, w, json[..w] + s[..0])
  {
  }

  /** From r on, the text s that begins at `from` and its NUL at n have not been overwritten. */
  ghost predicate Ahead(json: array<char>, r: nat, n: nat, s: string, from: nat)
    reads json
  {
    && from <= r <= n + 1 && n < json.Length && n == from + |s| && NulFree(s)
    && (r <= n ==> json[n] == '\0') && forall k :: r <= k < n ==> json[k] == s[k - from]
  }

  /** The next byte of that text is copied. */
  method MoveOn(json: array<char>, r: nat, w: nat, ghost n: nat, ghost before: string, ghost s: string, ghost from: nat)
    requires w <= r <= n && Ahead(json, r, n, s, from) && (r < n ==> Copies(json, w, before + s[..r - from]))
    modifies json
    ensures Ahead(json, r + 1, n, s, from) && (r < n ==> Copies(json, w + 1, before + s[..r + 1 - from]))
  {
    assert r < n ==> s[..r - from + 1] == s[..r - from] + [s[r - from]];
    Move(json, r, w);
  }

  lemma LiteralStep(s: string, p: nat)
    ensures p <= |s| && (p == |s| || s[p] == '\"') ==> LiteralRead(s, p) == p + 1
    ensures p > |s| ==> LiteralRead(s, p) == p
    ensures p < |s| && s[p] == '\\' ==> LiteralRead(s, p) == LiteralRead(s, p + 2)
    ensures p < |s| && s[p] != '\\' && s[p] != '\"' ==> LiteralRead(s, p) == LiteralRead(s, p + 1)
  {
  }

  lemma AheadAt(json: array<char>, r: nat, n: nat, s: string, from: nat)
    requires Ahead(json, r, n, s, from)
    ensures r < n ==> json[r] == s[r - from] && json[r] != '\0'
    ensures r == n ==> json[r] == '\0'
    ensures n < json.Length
  {
  }

  /** One byte of a literal, or an escape of two. */
  method CopyChar(json: array<char>, r: nat, w: nat, ghost n: nat, ghost before: string, ghost s: string,
                  ghost from: nat)
    returns (r': nat, w': nat)
    requires from <= r && w <= r < n < json.Length
    requires Ahead(json, r, n, s, from) && Copies(json, w, before + s[..r - from])
    requires json[r] != '\"'
    modifies json
    ensures r < r' <= n + 1 && w' == w + r' - r && LiteralRead(s, r' - from) == LiteralRead(s, r - from)
    ensures Ahead(json, r', n, s, from) && (r' <= n ==> Copies(json, w', before + s[..r' - from]))
  {
    hide Copies, LiteralRead, Ahead;
    LiteralStep(s, r - from);
    AheadAt(json, r, n, s, from);
    r', w' := r, w;
    if json[r] == '\\' {
      MoveOn(json, r', w', n, before, s, from);
      r', w' := r' + 1, w' + 1;
    }
    MoveOn(json, r', w', n, before, s, from);
    r', w' := r' + 1, w' + 1;
  }

  /** Copying a string literal, quotes and escapes included; an open one takes the read position past the NUL, and
      there the model stops. */
  method CopyLiteral(json: array<char>, r: nat, w: nat, n: nat, ghost s: string) returns (r': nat, w': nat)
    requires w <= r < n < json.Length && Ahead(json, r, n, s, r) && json[r] == '\"'
    modifies json
    ensures r' == r + LiteralRead(s, 1)
    ensures r' <= n ==>
      w' == w + r' - r && Ahead(json, r', n, s, r) && Copies(json, w', old(json[..w]) + s[..r' - r])
  {
    hide Copies, LiteralRead, Ahead;
    ghost var before := json[..w];
    CopiesNothing(json, w, s);
    MoveOn(json, r, w, n, before, s, r);
    r', w' := r + 1, w + 1;
    AheadAt(json, r', n, s, r);
    while r' <= n && json[r'] != '\0' && json[r'] != '\"'
      invariant r < r' <= n + 1 && w' == w + r' - r
      invariant Ahead(json, r', n, s, r) && (r' <= n ==> Copies(json, w', before + s[..r' - r]))
      invariant LiteralRead(s, r' - r) == LiteralRead(s, 1)
      invariant r' == n ==> json[r'] == '\0'
      decreases n + 1 - r'
    {
      r', w' := CopyChar(json, r', w', n, before, s, r);
      AheadAt(json, r', n, s, r);
    }
    LiteralStep(s, r' - r);
    AheadAt(json, r', n, s, r);
    if r' <= n {
      MoveOn(json, r', w', n, before, s, r);
      r', w' := r' + 1, w' + 1;
    }
  }

  /** A round that passes over the text: a blank or a comment. */
  predicate Passed(s: string)
    requires s != []
  {
    Blank(s[0]) || (s[0] == '/' && |s| > 1 && (s[1] == '/' || s[1] == '*'))
  }

  lemma UnreadAhead(json: array<char>, r: nat, n: nat)
    requires Unread(json, r, n)
    ensures Ahead(json, r, n, json[r..n], r)
  {
  }

  lemma AheadLater(json: array<char>, r: nat, r': nat, n: nat, s: string, from: nat)
    requires Ahead(json, r, n, s, from) && r <= r' <= n
    ensures Ahead(json, r', n, s, from)
  {
  }

  lemma AheadUnread(json: array<char>, r: nat, n: nat, s: string, from: nat)
    requires Ahead(json, r, n, s, from) && r <= n
    ensures Unread(json, r, n) && json[r..n] == s[r - from..]
  {
  }

  /** What a round has done: it has read a part of the text s at r and copied it, or passed over it. */
  lemma RoundDone(json: array<char>, r: nat, r': nat, w': nat, n: nat, s: string, before: string)
    requires s != [] && r' == r + RoundRead(s) <= n && Ahead(json, r', n, s, r)
    requires Copies(json, w', before + if Passed(s) then [] else s[..r' - r])
    ensures Unread(json, r', n) && json[r'..n] == s[r' - r..]
    ensures Onto(json[..w'], Minified(json[r'..n])) == Onto(before, Minified(s))
  {
    hide RoundRead, Minified, Unread, Onto;
    RoundReads(s);
    AheadUnread(json, r', n, s, r);
    OntoTwice(before, s[..r' - r], Minified(s[r' - r..]));
    assert before + [] == before;
  }

  /** Which branch the main loop takes. */
  lemma RoundIs(s: string)
    requires s != []
    ensures Blank(s[0]) ==> RoundRead(s) == 1 && Passed(s)
    ensures s[0] == '/' && |s| > 1 && s[1] == '/' ==> RoundRead(s) == LineEnding(s, 2) && Passed(s)
    ensures s[0] == '/' && |s| > 1 && s[1] == '*' ==> RoundRead(s) == CommentRead(s, 0) && Passed(s)
    ensures s[0] == '\"' ==> RoundRead(s) == LiteralRead(s, 1) && !Passed(s)
    ensures !Blank(s[0]) && s[0] != '\"' && !(s[0] == '/' && |s| > 1 && (s[1] == '/' || s[1] == '*')) ==>
      RoundRead(s) == 1 && !Passed(s)
  {
    hide LineEnding, CommentRead, LiteralRead;
  }

  /** One round of the main loop. */
  method MinifyOne(json: array<char>, r: nat, w: nat, n: nat) returns (r': nat, w': nat)
    requires w <= r < n && Unread(json, r, n)
    modifies json
    ensures r' == r + RoundRead(old(json[r..n]))
    ensures r' <= n ==>
      && w' <= r' && Unread(json, r', n) && json[r'..n] == old(json[r..n])[r' - r..]
      && Onto(json[..w'], Minified(json[r'..n])) == Onto(old(json[..w]), Minified(old(json[r..n])))
  {
    hide Minified, Onto, RoundRead, Passed, Ahead, Copies, LineEnding, CommentRead, LiteralRead;
    ghost var s, before := json[r..n], json[..w];
    UnreadAhead(json, r, n);
    RoundIs(s);
    NothingCopied(json, w);
    assert json[r] == s[0] && (r + 1 < n ==> json[r + 1] == s[1]);
    r', w' := r, w;
    if json[r] == ' ' || json[r] == '\t' || json[r] == '\r' || json[r] == '\n' {
      r' := r + 1;
    } else if json[r] == '/' && json[r + 1] == '/' {
      r' := SkipLine(json, r, n);
    } else if json[r] == '/' && json[r + 1] == '*' {
      r' := SkipComment(json, r, n);
    } else if json[r] == '\"' {
      r', w' := CopyLiteral(json, r, w, n, s);
    } else {
      MoveOn(json, r, w, n, before, s, r);
      r', w' := r + 1, w + 1;
    }
    if r' <= n {
      if w' == w {
        AheadLater(json, r, r', n, s, r);
      }
      RoundDone(json, r, r', w', n, s, before);
    }
  }

  lemma NothingCopied(json: array<char>, w: nat)
    requires w <= json.Length
    ensures Copies(json, w, json[..w] + [])
  {
  }

  /** cJSON_Minify of a C string of length n.  The read position ends at the NUL exactly if the text has a minified
      form, and then the buffer holds that; the write position never overtakes it.  For other texts the program
      reads on behind the NUL, and the model stops there. */
  method Minify(json: array<char>, n: nat) returns (r: nat)
    requires Unread(json, 0, n)
    modifies json
    ensures r == ReadTo(old(json[..n]))
    ensures r <= n <==> Minified(old(json[..n])).Some?
    ensures r <= n ==> var m := Minified(old(json[..n])).value; |m| <= n && json[..|m|] == m && json[|m|] == '\0'
  {
    hide RoundRead, Minified;
    ghost var s := json[..n];
    var w: nat := 0;
    r := 0;
    assert json[..0] == [] && json[0..n] == s;
    OntoNothing(Minified(s));
    ReadsPastExactly(s);
    while r <= n && json[r] != '\0'
      invariant ReadTo(s) == if r <= n then r + ReadTo(json[r..n]) else r
      invariant r <= n ==> w <= r && Unread(json, r, n) && Minified(s) == Onto(json[..w], Minified(json[r..n]))
      decreases n - r
    {
      r, w := MinifyOne(json, r, w, n);
    }
    if r <= n {
      assert json[r..n] == [];
      MinifiedNothing();
      assert json[..w] + [] == json[..w];
      json[w] := '\0';
    }
  }
}
