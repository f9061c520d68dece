/** What cJSON_Minify drops and what it keeps, for every text it gets through: blanks and comments go, literals and all
    other bytes stay. */
module CjsonMinifyLexis {
  import opened Wrappers
  import opened CjsonString
  import opened CjsonMinify

  /** The pieces of a text.  A comment of slash and star is kept with all that follows its slash. */
  datatype Lexeme = Gap(c: char) | LineComment(body: string) | BlockComment(body: string) | Quoted(body: string)
    | Other(c: char)
  {
    predicate Ok() {
      match this
      case Gap(c) => c == ' ' || c == '\t' || c == '\r' || c == '\n'
      case LineComment(body) => '\n' !in body
      case BlockComment(body) =>
        |body| >= 2 && body[0] == '*' && EndsAt(body, |body| - 2) && NoEndBefore(body, |body| - 2)
      case Quoted(body) => Scans(body)
      case Other(c) => c != ' ' && c != '\t' && c != '\r' && c != '\n' && c != '\"'
    }

    function Source(): (s: string)
      ensures |s| >= 1
    {
      match this
      case Gap(c) => [c]
      case LineComment(body) => "//" + body
      case BlockComment(body) => "/" + body
      case Quoted(body) => "\"" + body + "\""
      case Other(c) => [c]
    }

    /** A line comment goes up to a line end or the end of the text, and a slash by itself opens no comment. */
    predicate Before(rest: string) {
      match this
      case LineComment(_) => rest == "" || rest[0] == '\n'
      case Other(c) => c == '/' && rest != "" ==> rest[0] != '/' && rest[0] != '*'
      case _ => true
    }
  }

  predicate EndsAt(body: string, i: nat) {
    i + 1 < |body| && body[i] == '*' && body[i + 1] == '/'
  }

  predicate NoEndBefore(body: string, n: nat) {
    forall i :: 0 <= i < n ==> !EndsAt(body, i)
  }

  function Sources(ls: seq<Lexeme>): string {
    if ls == [] then "" else ls[0].Source() + Sources(ls[1..])
  }

  /** The literals and the other bytes. */
  function Kept(ls: seq<Lexeme>): string {
    if ls == [] then ""
    else (if ls[0].Quoted? || ls[0].Other? then ls[0].Source() else "") + Kept(ls[1..])
  }

  predicate Lexed(ls: seq<Lexeme>) {
    ls == [] || (ls[0].Ok() && ls[0].Before(Sources(ls[1..])) && Lexed(ls[1..]))
  }

  // ---------------------------------------------------------------- where a piece ends

  lemma {:induction false} LineEnds(s: string, p: nat, e: nat)
    requires p <= e <= |s| && (forall i :: p <= i < e ==> s[i] != '\n') && (e == |s| || s[e] == '\n')
    ensures LineEnding(s, p) == e
    decreases e - p
  {
    if p < e {
      LineEnds(s, p + 1, e);
    }
  }

  lemma {:induction false} CommentEnds(s: string, p: nat, e: nat)
    requires p <= e && e + 1 < |s| && EndsAt(s, e) && forall i :: p <= i < e ==> !EndsAt(s, i)
    ensures CommentEnd(s, p) == Some(e + 2)
    decreases e - p
  {
    if p < e {
      assert !EndsAt(s, p);
      CommentEnds(s, p + 1, e);
    }
  }

  lemma {:induction false} LiteralEnds(s: string, p: nat, body: string)
    requires Scans(body) && Stands(s, p, body) && p + |body| < |s| && s[p + |body|] == '\"'
    ensures LiteralEnd(s, p) == Some(p + |body| + 1)
    decreases |body|
  {
    if body != [] {
      var n := if body[0] == '\\' then 2 else 1;
      assert body == body[..n] + body[n..];
      StandsParts(s, p, body[..n], body[n..]);
      assert s[p] == s[p..p + n][0];
      LiteralEnds(s, p + n, body[n..]);
    }
  }

  // ---------------------------------------------------------------- from the pieces to the minified text

  lemma BlockSkipped(body: string, rest: string)
    requires BlockComment(body).Ok()
    ensures Minified("/" + body + rest) == Minified(rest)
  {
    var s := "/" + body + rest;
    assert s[1..][..|body|] == body;
    forall i | 1 <= i < |body| - 1 ensures !EndsAt(s, i) {
      assert !EndsAt(body, i - 1);
    }
    CommentEnds(s, 1, |body| - 1);
    assert s[|body| + 1..] == rest;
  }

  lemma LineSkipped(body: string, rest: string)
    requires LineComment(body).Ok() && LineComment(body).Before(rest)
    ensures Minified("//" + body + rest) == Minified(rest)
  {
    var s := "//" + body + rest;
    assert forall i :: 2 <= i < 2 + |body| ==> s[i] == body[i - 2];
    LineEnds(s, 2, 2 + |body|);
    assert s[2 + |body|..] == rest;
  }

  lemma LiteralKept(body: string, rest: string)
    requires Quoted(body).Ok()
    ensures Minified("\"" + body + "\"" + rest) == Onto("\"" + body + "\"", Minified(rest))
  {
    hide Scans;
    var s := "\"" + body + "\"" + rest;
    assert s[1..1 + |body|] == body;
    LiteralEnds(s, 1, body);
    assert s[..|body| + 2] == "\"" + body + "\"" && s[|body| + 2..] == rest;
  }

  lemma OtherKept(c: char, rest: string)
    requires Other(c).Ok() && Other(c).Before(rest)
    ensures Minified([c] + rest) == Onto([c], Minified(rest))
  {
    assert ([c] + rest)[1..] == rest;
  }

  lemma GapSkipped(c: char, rest: string)
    requires Gap(c).Ok()
    ensures Minified([c] + rest) == Minified(rest)
  {
    assert ([c] + rest)[1..] == rest;
  }

  lemma {:induction false} KeepsLexemes(ls: seq<Lexeme>)
    requires Lexed(ls)
    ensures Minified(Sources(ls)) == Some(Kept(ls))
    decreases |ls|
  {
    hide Minified, Lexeme.Ok, Lexeme.Before;
    if ls == [] {
      MinifiedNothing();
    } else {
      var rest := Sources(ls[1..]);
      KeepsLexemes(ls[1..]);
      assert "" + Kept(ls[1..]) == Kept(ls[1..]);
      match ls[0]
      case Gap(c) => GapSkipped(c, rest);
      case LineComment(body) => LineSkipped(body, rest);
      case BlockComment(body) => BlockSkipped(body, rest);
      case Quoted(body) => LiteralKept(body, rest);
      case Other(c) => OtherKept(c, rest);
    }
  }

  // ---------------------------------------------------------------- from a text to its pieces

  lemma {:induction false} LineFound(s: string, p: nat)
    requires p <= |s|
    ensures var e := LineEnding(s, p); '\n' !in s[p..e] && (e == |s| || s[e] == '\n')
    decreases |s| - p
  {
    if p < |s| && s[p] != '\n' {
      LineFound(s, p + 1);
      assert s[p..LineEnding(s, p)] == [s[p]] + s[p + 1..LineEnding(s, p + 1)];
    }
  }

  lemma {:induction false} CommentFound(s: string, p: nat)
    requires p <= |s| && CommentEnd(s, p).Some?
    ensures var e := CommentEnd(s, p).value; EndsAt(s, e - 2) && forall i :: p <= i < e - 2 ==> !EndsAt(s, i)
    decreases |s| - p
  {
    if !EndsAt(s, p) {
      CommentFound(s, p + 1);
    }
  }

  lemma {:induction false} LiteralFound(s: string, p: nat)
    requires LiteralEnd(s, p).Some?
    ensures var e := LiteralEnd(s, p).value; s[e - 1] == '\"' && Scans(s[p..e - 1])
    decreases |s| - p
  {
    if s[p] != '\"' {
      var n := if s[p] == '\\' then 2 else 1;
      LiteralFound(s, p + n);
      var e := LiteralEnd(s, p).value;
      assert s[p..e - 1][n..] == s[p + n..e - 1];
    }
  }

  lemma FirstLine(s: string) returns (x: Lexeme, rest: string)
    requires |s| > 1 && s[0] == '/' && s[1] == '/' && Minified(s).Some?
    ensures x.LineComment? && x.Ok() && x.Before(rest) && s == x.Source() + rest && Minified(rest).Some?
  {
    hide Minified, LineEnding;
    var e := LineEnding(s, 2);
    LineFound(s, 2);
    LineStep(s);
    x, rest := LineComment(s[2..e]), s[e..];
    assert s[..2] == "//" && s == s[..2] + s[2..e] + s[e..];
  }

  lemma LineStep(s: string)
    requires |s| > 1 && s[0] == '/' && s[1] == '/'
    ensures Minified(s) == Minified(s[LineEnding(s, 2)..])
  {
    hide LineEnding;
  }

  lemma FirstQuoted(s: string) returns (x: Lexeme, rest: string)
    requires s != "" && s[0] == '\"' && Minified(s).Some?
    ensures x.Quoted? && x.Ok() && s == x.Source() + rest && Minified(rest).Some?
  {
    hide Scans;
    LiteralFound(s, 1);
    var e := LiteralEnd(s, 1).value;
    x, rest := Quoted(s[1..e - 1]), s[e..];
  }

  /** The first piece of a text that can be minified. */
  lemma FirstLexeme(s: string) returns (x: Lexeme, rest: string)
    requires s != "" && Minified(s).Some?
    ensures x.Ok() && x.Before(rest) && s == x.Source() + rest && Minified(rest).Some?
  {
    if Blank(s[0]) {
      x, rest := Gap(s[0]), s[1..];
    } else if s[0] == '/' && |s| > 1 && s[1] == '/' {
      x, rest := FirstLine(s);
    } else if s[0] == '/' && |s| > 1 && s[1] == '*' {
      x, rest := FirstBlock(s);
    } else if s[0] == '\"' {
      x, rest := FirstQuoted(s);
    } else {
      x, rest := Other(s[0]), s[1..];
    }
  }

  lemma FirstBlock(s: string) returns (x: Lexeme, rest: string)
    requires |s| > 1 && s[0] == '/' && s[1] == '*' && Minified(s).Some?
    ensures x.BlockComment? && x.Ok() && s == x.Source() + rest && Minified(rest).Some?
  {
    hide Minified, CommentEnd, EndsAt;
    BlockStep(s);
    CommentFound(s, 1);
    var e := CommentEnd(s, 1).value;
    x, rest := BlockComment(s[1..e]), s[e..];
    BlockOk(s, e);
    assert s[..1] == "/" && s == s[..1] + s[1..e] + s[e..];
  }

  lemma BlockStep(s: string)
    requires |s| > 1 && s[0] == '/' && s[1] == '*' && Minified(s).Some?
    ensures CommentEnd(s, 1).Some? && Minified(s) == Minified(s[CommentEnd(s, 1).value..])
  {
    hide CommentEnd;
  }

  lemma BlockOk(s: string, e: nat)
    requires 3 <= e <= |s| && s[1] == '*' && EndsAt(s, e - 2) && forall i :: 1 <= i < e - 2 ==> !EndsAt(s, i)
    ensures BlockComment(s[1..e]).Ok()
  {
    var body := s[1..e];
    forall i | 0 <= i < |body| - 2 ensures !EndsAt(body, i) {
      assert !EndsAt(s, i + 1);
    }
  }

  lemma {:induction false} HasLexemes(s: string) returns (ls: seq<Lexeme>)
    requires Minified(s).Some?
    ensures Lexed(ls) && Sources(ls) == s
    decreases |s|
  {
    hide Minified, Lexeme.Ok, Lexeme.Before, Lexeme.Source;
    ls := [];
    if s != "" {
      var x, rest := FirstLexeme(s);
      var more := HasLexemes(rest);
      ls := [x] + more;
      assert ls[1..] == more;
    }
  }

  /** A text has the minified form m if and only if m is what is kept of its pieces. */
  lemma MinifiedExactly(s: string, m: string)
    ensures Minified(s) == Some(m) <==> exists ls :: Lexed(ls) && Sources(ls) == s && Kept(ls) == m
  {
    hide Minified, Lexed, Sources, Kept;
    if Minified(s) == Some(m) {
      var ls := HasLexemes(s);
      KeepsLexemes(ls);
    }
    if ls :| Lexed(ls) && Sources(ls) == s && Kept(ls) == m {
      KeepsLexemes(ls);
    }
  }
}
