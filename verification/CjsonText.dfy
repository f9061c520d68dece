/** JSON values, the text cJSON prints for them, and its parser, as functions.  A string or number is
    held as the bytes of the C string that represents it. */
module CjsonText {
  import opened Wrappers
  import opened CjsonKeys
  import opened CjsonString

  /** A number is represented by the text from which strtod yields it. */
  datatype Json =
    | Null
    | False
    | True
    | Number(text: string)
    | Str(s: string)
    | Arr(items: seq<Json>)
    | Obj(members: seq<Member>)

  datatype Member = Member(key: string, value: Json)

  const NESTING_LIMIT := 1000

  function Max(m: nat, n: nat): nat {
    if m < n then n else m
  }

  /** How many arrays and objects are nested in each other. */
  function Height(v: Json): nat
    decreases v
  {
    match v
    case Arr(items) => 1 + HeightItems(items)
    case Obj(members) => 1 + HeightMembers(members)
    case _ => 0
  }

  function HeightItems(items: seq<Json>): nat
    decreases items
  {
    if items == [] then 0 else Max(Height(items[0]), HeightItems(items[1..]))
  }

  function HeightMembers(members: seq<Member>): nat
    decreases members
  {
    if members == [] then 0 else Max(Height(members[0].value), HeightMembers(members[1..]))
  }

  // ---------------------------------------------------------------- printing

  function Tabs(n: nat): (s: string)
    ensures |s| == n
    ensures forall i :: 0 <= i < n ==> s[i] == '\t'
  {
    if n == 0 then [] else ['\t'] + Tabs(n - 1)
  }

  /** What print_value writes for v at nesting depth `depth`. */
  function Text(v: Json, format: bool, depth: nat): string
    decreases v
  {
    match v
    case Null => "null"
    case False => "false"
    case True => "true"
    case Number(text) => text
    case Str(s) => Quote(s)
    case Arr(items) => "[" + TextItems(items, format, depth + 1) + "]"
    case Obj(members) =>
      (if format then "{\n" else "{") + TextMembers(members, format, depth + 1)
      + (if format then Tabs(depth) else "") + "}"
  }

  function TextItems(items: seq<Json>, format: bool, depth: nat): string
    decreases items
  {
    if items == [] then ""
    else Text(items[0], format, depth)
         + (if |items| == 1 then "" else if format then ", " else ",")
         + TextItems(items[1..], format, depth)
  }

  function TextMember(m: Member, more: bool, format: bool, depth: nat): string
    decreases m
  {
    (if format then Tabs(depth) else "") + Quote(m.key) + (if format then ":\t" else ":")
    + Text(m.value, format, depth) + (if more then "," else "") + (if format then "\n" else "")
  }

  function TextMembers(members: seq<Member>, format: bool, depth: nat): string
    decreases members
  {
    if members == [] then ""
    else TextMember(members[0], |members| > 1, format, depth) + TextMembers(members[1..], format, depth)
  }

  // ---------------------------------------------------------------- parsing

  datatype Parsed<T> = Fail | Done(value: T, next: nat)

  /** The text ends with its terminating NUL. */
  predicate Terminated(b: string) {
    |b| > 0 && b[|b| - 1] == '\0'
  }

  /** buffer_skip_whitespace: it never leaves the buffer. */
  function Skip(b: string, p: nat): (q: nat)
    requires |b| > 0 && p <= |b|
    ensures q < |b| && (p < |b| ==> p <= q)
    decreases |b| - p
  {
    if p < |b| && b[p] <= ' ' then Skip(b, p + 1)
    else if p == |b| then p - 1
    else p
  }

  predicate IsDigit(c: char) {
    '0' <= c <= '9'
  }

  predicate NumberChar(c: char) {
    IsDigit(c) || c == '+' || c == '-' || c == 'e' || c == 'E' || c == '.'
  }

  /** The characters parse_number copies: at most 63. */
  function NumberRun(b: string, p: nat, limit: nat): (n: nat)
    ensures n <= limit && (p <= |b| ==> p + n <= |b|)
    ensures forall i :: p <= i < p + n && i < |b| ==> NumberChar(b[i])
    decreases limit
  {
    if limit > 0 && p < |b| && NumberChar(b[p]) then 1 + NumberRun(b, p + 1, limit - 1) else 0
  }

  function DigitRun(t: string, p: nat): (n: nat)
    ensures p <= |t| ==> p + n <= |t|
    decreases |t| - p
  {
    if p < |t| && IsDigit(t[p]) then 1 + DigitRun(t, p + 1) else 0
  }

  function SignAt(t: string, p: nat): (n: nat)
    ensures p <= |t| ==> p + n <= |t|
  {
    if p < |t| && (t[p] == '+' || t[p] == '-') then 1 else 0
  }

  /** How much of t strtod takes: sign, digits with an optional point, and an exponent if it has digits. */
  function StrtodLength(t: string): (n: nat)
    ensures n <= |t|
  {
    var s := SignAt(t, 0);
    var d := DigitRun(t, s);
    var p := s + d;
    var f := if p < |t| && t[p] == '.' then DigitRun(t, p + 1) else 0;
    var q := if p < |t| && t[p] == '.' then p + 1 + f else p;
    if d + f == 0 then 0
    else if q < |t| && (t[q] == 'e' || t[q] == 'E') then
      var r := q + 1 + SignAt(t, q + 1);
      var x := DigitRun(t, r);
      if x > 0 then r + x else q
    else q
  }

  function ParseNumber(b: string, p: nat): (r: Parsed<Json>)
    requires Terminated(b) && p < |b|
    ensures r.Done? ==> p < r.next < |b|
  {
    var n := NumberRun(b, p, 63);
    var k := StrtodLength(b[p..p + n]);
    assert k > 0 ==> NumberChar(b[p + k - 1]);
    if k == 0 then Fail else Done(Number(b[p..p + k]), p + k)
  }

  /** What is left of a decoded string once it is read as a C string. */
  function CString(s: string): string {
    if s == [] || s[0] == '\0' then [] else [s[0]] + CString(s[1..])
  }

  function ParseString(b: string, p: nat): (r: Parsed<string>)
    requires Terminated(b) && p < |b|
    ensures r.Done? ==> p < r.next < |b|
  {
    if b[p] != '\"' then Fail
    else match ClosingQuote(b, p + 1)
      case None => Fail
      case Some(e) =>
        match Decode(b, p + 1, e)
        case None => Fail
        case Some(s) => Done(CString(s), e + 1)
  }

  predicate Starts(b: string, p: nat, word: string) {
    p + |word| <= |b| && b[p..p + |word|] == word
  }

  lemma WordInside(b: string, p: nat, word: string)
    requires Terminated(b) && Starts(b, p, word) && |word| > 0 && word[|word| - 1] != '\0'
    ensures p + |word| < |b|
  {
    assert b[p + |word| - 1] == b[p..p + |word|][|word| - 1];
  }

  function ParseValue(b: string, p: nat, depth: nat): (r: Parsed<Json>)
    requires Terminated(b) && p < |b|
    ensures r.Done? ==> p < r.next < |b|
    decreases |b| - p, 2
  {
    if Starts(b, p, "null") then WordInside(b, p, "null"); Done(Null, p + 4)
    else if Starts(b, p, "false") then WordInside(b, p, "false"); Done(False, p + 5)
    else if Starts(b, p, "true") then WordInside(b, p, "true"); Done(True, p + 4)
    else if b[p] == '\"' then
      match ParseString(b, p)
      case Fail => Fail
      case Done(s, q) => Done(Str(s), q)
    else if b[p] == '-' || IsDigit(b[p]) then ParseNumber(b, p)
    else if b[p] == '[' then
      match ParseArray(b, p, depth)
      case Fail => Fail
      case Done(items, q) => Done(Arr(items), q)
    else if b[p] == '{' then
      match ParseObject(b, p, depth)
      case Fail => Fail
      case Done(members, q) => Done(Obj(members), q)
    else Fail
  }

  function ParseArray(b: string, p: nat, depth: nat): (r: Parsed<seq<Json>>)
    requires Terminated(b) && p < |b| && b[p] == '['
    ensures r.Done? ==> p < r.next < |b|
    decreases |b| - p, 1
  {
    if depth >= NESTING_LIMIT then Fail
    else
      var q := Skip(b, p + 1);
      if b[q] == ']' then Done([], q + 1) else ParseItems(b, q - 1, depth + 1)
  }

  /** The elements after the bracket or comma at p. */
  function ParseItems(b: string, p: nat, depth: nat): (r: Parsed<seq<Json>>)
    requires Terminated(b) && p < |b| - 1
    ensures r.Done? ==> p < r.next < |b|
    decreases |b| - p, 0
  {
    match ParseValue(b, Skip(b, p + 1), depth)
    case Fail => Fail
    case Done(v, q) =>
      var s := Skip(b, q);
      if b[s] == ',' then
        match ParseItems(b, s, depth)
        case Fail => Fail
        case Done(rest, t) => Done([v] + rest, t)
      else if b[s] == ']' then Done([v], s + 1)
      else Fail
  }

  function ParseObject(b: string, p: nat, depth: nat): (r: Parsed<seq<Member>>)
    requires Terminated(b) && p < |b| && b[p] == '{'
    ensures r.Done? ==> p < r.next < |b|
    decreases |b| - p, 1
  {
    if depth >= NESTING_LIMIT then Fail
    else
      var q := Skip(b, p + 1);
      if b[q] == '}' then Done([], q + 1) else ParseMembers(b, q - 1, depth + 1)
  }

  /** The members after the brace or comma at p. */
  function ParseMembers(b: string, p: nat, depth: nat): (r: Parsed<seq<Member>>)
    requires Terminated(b) && p < |b| - 1
    ensures r.Done? ==> p < r.next < |b|
    decreases |b| - p, 0
  {
    match ParseString(b, Skip(b, p + 1))
    case Fail => Fail
    case Done(key, q) =>
      var c := Skip(b, q);
      if b[c] != ':' then Fail
      else
        match ParseValue(b, Skip(b, c + 1), depth)
        case Fail => Fail
        case Done(v, u) =>
          var s := Skip(b, u);
          if b[s] == ',' then
            match ParseMembers(b, s, depth)
            case Fail => Fail
            case Done(rest, t) => Done([Member(key, v)] + rest, t)
          else if b[s] == '}' then Done([Member(key, v)], s + 1)
          else Fail
  }

  /** skip_utf8_bom, at the start of the text. */
  function SkipBom(b: string): nat {
    if |b| > 4 && b[..3] == ['\U{ef}', '\U{bb}', '\U{bf}'] then 3 else 0
  }

  /** cJSON_Parse of a C string: the value and where it ends. */
  function Parse(text: string): Parsed<Json>
  {
    var b := text + ['\0'];
    ParseValue(b, Skip(b, SkipBom(b)), 0)
  }
}
