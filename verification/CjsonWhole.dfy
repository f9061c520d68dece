/** Printing with the growing buffer and parsing the printed C string again. */
module CjsonWhole {
  import opened Wrappers
  import opened CjsonKeys
  import opened CjsonString
  import opened CjsonText
  import opened CjsonGrammar
  import opened CjsonRoundTrip
  import opened CjsonParser
  import opened CjsonPrinter
  import opened CjsonMinify
  import opened CjsonMinifyCode
  import opened CjsonMinifyParse

  lemma SkipsToTheEnd(text: string)
    ensures var b := text + ['\0']; Skip(b, |text|) == |text| && b[|text|] == '\0'
  {
    var b := text + ['\0'];
    assert Skip(b, |b|) == |text|;
  }

  /** cJSON_Print or cJSON_PrintUnformatted, then cJSON_ParseWithOpts: the same value comes back, unless
      memory runs out or the text is too long for the printer. */
  method PrintAndParse(v: Json, format: bool, reallocate: bool, requireNull: bool)
    returns (back: Option<Json>, starved: bool)
    requires Printable(v) && Height(v) <= NESTING_LIMIT
    ensures back.Some? ==> back == Some(v)
    ensures back.None? ==> starved || Need(v, format, 0) > INT_MAX
  {
    hide Text, Height, Printable, Parse, Skip;
    var printed;
    printed, starved := Print(v, format, reallocate);
    if printed == null {
      return None, starved;
    }
    ghost var text := Text(v, format, 0);
    var n := 0;
    while printed[n] != '\0'
      invariant n <= |text|
      decreases |text| - n
    {
      assert printed[..|text|][n] == text[n];
      n := n + 1;
    }
    EndsThere(printed, text, n);
    PrintThenParse(v, format);
    SkipsToTheEnd(text);
    var end;
    back, end, starved := ParseWithOpts(printed[..n], requireNull);
  }

  lemma EndsThere(space: array<char>, s: string, n: nat)
    requires IsCString(space, s) && n <= |s| && space[n] == '\0'
    ensures n == |s|
  {
  }

  /** cJSON_Minify of any text that is accepted as a whole, then cJSON_ParseWithOpts: the value of the text. */
  method MinifyAndParse(json: array<char>, n: nat) returns (value: Option<Json>, starved: bool)
    requires Unread(json, 0, n) && Accepted(json[..n])
    modifies json
    ensures value.Some? ==> value.value == old(Parse(json[..n]).value)
    ensures value.None? ==> starved
  {
    hide Accepted, Parse, Minified, Skip;
    ghost var text := json[..n];
    MinifyKeepsMeaning(text);
    ghost var m := Minified(text).value;
    var r := Minify(json, n);
    var k := 0;
    while json[k] != '\0'
      invariant k <= |m| && |m| <= n
      decreases |m| - k
    {
      k := k + 1;
    }
    EndsAt(json[..], m, k);
    AcceptedParses(m);
    var end;
    value, end, starved := ParseWithOpts(json[..k], true);
  }

  lemma EndsAt(s: string, m: string, k: nat)
    requires k <= |m| < |s| && s[..|m|] == m && s[k] == '\0' && NulFree(m)
    ensures k == |m| && s[..k] == m
  {
    forall i | 0 <= i < |m| ensures s[i] == m[i] {
      assert s[i] == s[..|m|][i];
    }
  }

  lemma AcceptedParses(text: string)
    requires Accepted(text)
    ensures Parse(text).Done? && Skip(text + ['\0'], Parse(text).next) == |text|
    ensures (text + ['\0'])[|text|] == '\0'
  {
  }
}
