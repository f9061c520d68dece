/** The printer of cJSON as it runs: a buffer that grows by reallocation, or must not grow, and an offset
    that follows the text. */
module CjsonPrinter {
  import opened Wrappers
  import opened CjsonKeys
  import opened CjsonString
  import opened CjsonText
  import opened CjsonGrammar
  import opened CjsonRoundTrip

  const INT_MAX := 0x7fff_ffff

  // ---------------------------------------------------------------- printed text holds no NUL

  lemma {:induction false} EscapeNulFree(s: string)
    requires CText(s)
    ensures NulFree(Escape(s))
    decreases |s|
  {
    if s != [] {
      EscapeNulFree(s[1..]);
    }
  }

  lemma {:induction false} TextNulFree(v: Json, format: bool, depth: nat)
    requires Printable(v)
    ensures NulFree(Text(v, format, depth))
    decreases v
  {
    hide TextItems, TextMembers, Escape;
    match v
    case Str(s) => EscapeNulFree(s);
    case Arr(items) => TextItemsNulFree(items, format, depth + 1);
    case Obj(members) => TextMembersNulFree(members, format, depth + 1);
    case _ =>
  }

  lemma {:induction false} TextItemsNulFree(items: seq<Json>, format: bool, depth: nat)
    requires PrintableItems(items)
    ensures NulFree(TextItems(items, format, depth))
    decreases items
  {
    hide Text;
    if items != [] {
      TextNulFree(items[0], format, depth);
      TextItemsNulFree(items[1..], format, depth);
    }
  }

  lemma {:induction false} TextMembersNulFree(members: seq<Member>, format: bool, depth: nat)
    requires PrintableMembers(members)
    ensures NulFree(TextMembers(members, format, depth))
    decreases members
  {
    hide Text, Escape;
    if members != [] {
      var m := members[0];
      EscapeNulFree(m.key);
      TextNulFree(m.value, format, depth);
      TextMembersNulFree(members[1..], format, depth);
      assert NulFree(TextMember(m, |members| > 1, format, depth));
    }
  }

  // ---------------------------------------------------------------- space

  /** How many bytes a value asks for behind what is already printed: one more than text and NUL, except
      for a number. */
  function Need(v: Json, format: bool, depth: nat): nat {
    |Text(v, format, depth)| + if v.Number? then 1 else 2
  }

  /** How many bytes print_string_ptr adds for escapes. */
  function EscapeCharacters(s: string): (n: nat)
    ensures |Escape(s)| == |s| + n
  {
    if s == [] then 0 else |EscapeChar(s[0])| - 1 + EscapeCharacters(s[1..])
  }

  lemma OneByte(c: char)
    requires |EscapeChar(c)| == 1
    ensures EscapeChar(c) == [c]
  {
  }

  lemma {:induction false} EscapeOfPlain(s: string)
    requires EscapeCharacters(s) == 0
    ensures Escape(s) == s
    decreases |s|
  {
    hide EscapeChar;
    if s != [] {
      OneByte(s[0]);
      EscapeOfPlain(s[1..]);
    }
  }

  class PrintBuffer {
    var buffer: array?<char>
    var length: nat
    var offset: nat
    var depth: nat
    const noalloc: bool
    const format: bool
    const reallocate: bool
    /** An allocation has been refused. */
    var starved: bool

    /** `length` is what the buffer may be used up to; print() leaves it at 0 at first. */
    ghost predicate Valid()
      reads `buffer, `length, `offset
    {
      && buffer != null && length <= buffer.Length && length <= INT_MAX
      && offset <= buffer.Length && (if length > 0 then offset < length else offset == 0)
    }

    /** What has been printed up to the offset. */
    ghost function Printed(): (s: string)
      requires Valid()
      reads `buffer, `length, `offset, buffer
      ensures |s| == offset
    {
      buffer[..offset]
    }

    /** The buffer holds s and a NUL, and the offset has yet to be moved to that NUL. */
    ghost predicate Holds(s: string)
      reads `buffer, `length, `offset, buffer
    {
      && Valid() && offset <= |s| < length && buffer[..|s|] == s && buffer[|s|] == '\0'
      && NulFree(s[offset..])
    }

    /** How far the buffer can be used, growth included. */
    ghost function Cap(): nat
      reads `length
    {
      if noalloc then length else INT_MAX
    }

    constructor (space: array<char>, length: nat, noalloc: bool, format: bool, reallocate: bool)
      requires length <= space.Length && length <= INT_MAX
      ensures Valid() && buffer == space && this.length == length && offset == 0 && depth == 0 && !starved
      ensures this.noalloc == noalloc && this.format == format && this.reallocate == reallocate
    {
      buffer := space;
      this.length := length;
      offset := 0;
      depth := 0;
      starved := false;
      this.noalloc := noalloc;
      this.format := format;
      this.reallocate := reallocate;
    }

    /** A bigger block with the first `keep` bytes in it; the allocator may refuse, and then the old block is
        gone too. */
    method Grow(size: nat, keep: nat) returns (ok: bool)
      requires Valid() && offset <= keep <= buffer.Length && keep <= size
      modifies this
      ensures offset == old(offset) && depth == old(depth)
      ensures ok ==>
        && buffer != null && fresh(buffer) && buffer.Length == length == size
        && buffer[..keep] == old(buffer[..keep]) && starved == old(starved)
      ensures !ok ==> starved && buffer == null
    {
      if * {
        starved := true;
        length := 0;
        buffer := null;
        return false;
      }
      var bigger := new char[size];
      var i := 0;
      while i < keep
        invariant 0 <= i <= keep && bigger[..i] == buffer[..i]
        modifies bigger
      {
        bigger[i] := buffer[i];
        i := i + 1;
      }
      length := size;
      buffer := bigger;
      return true;
    }

    /** ensure: on success `needed` more bytes and a NUL fit behind the offset. */
    method Ensure(needed: nat) returns (ok: bool)
      requires Valid()
      modifies this
      ensures offset == old(offset) && depth == old(depth) && Cap() == old(Cap())
      ensures buffer == null || buffer == old(buffer) || fresh(buffer)
      ensures noalloc ==> buffer == old(buffer) && length == old(length) && starved == old(starved)
      ensures ok ==>
        && Valid() && Printed() == old(Printed()) && starved == old(starved)
        && offset + needed + 1 <= length && offset + needed + 1 <= Cap()
      ensures !ok ==> starved || offset + needed + 1 > old(Cap())
    {
      if length > 0 && offset >= length {
        return false;
      }
      if needed > INT_MAX {
        return false;
      }
      var total := needed + offset + 1;
      if total <= length {
        return true;
      }
      if noalloc {
        return false;
      }
      var size: nat;
      if total > INT_MAX / 2 {
        if total > INT_MAX {
          return false;
        }
        size := INT_MAX;
      } else {
        size := total * 2;
      }
      var keep := if reallocate then if buffer.Length < size then buffer.Length else size
                  else if offset + 1 < buffer.Length then offset + 1 else buffer.Length;
      ghost var was := Printed();
      ok := Grow(size, keep);
      assert ok ==> buffer[..offset] == buffer[..keep][..offset];
    }

    /** The stores of one place in the code, from `at` on. */
    method Write(at: nat, s: string)
      requires buffer != null && at + |s| <= buffer.Length
      modifies buffer
      ensures buffer[..at + |s|] == old(buffer[..at]) + s
    {
      var i := 0;
      while i < |s|
        invariant 0 <= i <= |s| && buffer[..at + i] == old(buffer[..at]) + s[..i]
      {
        buffer[at + i] := s[i];
        i := i + 1;
      }
      assert s[..|s|] == s;
    }

    /** update_offset: strlen of what was written behind the offset. */
    method UpdateOffset(ghost s: string)
      requires Holds(s)
      modifies `offset
      ensures Valid() && Printed() == s && offset < length && buffer[offset] == '\0'
    {
      var n := 0;
      while buffer[offset + n] != '\0'
        invariant offset + n <= |s|
        decreases |s| - n
      {
        assert buffer[..|s|][offset + n] == s[offset + n];
        n := n + 1;
      }
      offset := offset + n;
    }

    /** The buffer is the old one or a new one, and never a new one when allocating is not allowed. */
    twostate predicate Framed()
      reads `buffer, `length, `starved
    {
      && (buffer == null || buffer == old(buffer) || fresh(buffer))
      && (noalloc ==> buffer == old(buffer) && length == old(length) && starved == old(starved))
      && Cap() == old(Cap())
    }

    /** ensure and strcpy of a fixed word. */
    method PrintWord(word: string) returns (ok: bool)
      requires Valid() && NulFree(word)
      modifies this, buffer
      ensures Framed()
      ensures ok ==>
        && depth == old(depth) && starved == old(starved)
        && Holds(old(Printed()) + word) && old(offset) + |word| + 2 <= Cap()
      ensures !ok ==> starved || old(offset) + |word| + 2 > Cap()
    {
      ok := Ensure(|word| + 1);
      if !ok {
        return;
      }
      ghost var text := Printed() + word;
      Write(offset, word + ['\0']);
      assert buffer[..|text| + 1] == text + ['\0'];
      Ended(text);
    }

    /** ensure, the stores of one place in the code, with a NUL or without, and the move of the offset. */
    method Append(s: string, needed: nat, terminate: bool) returns (ok: bool)
      requires Valid() && |s| <= needed
      modifies this, buffer
      ensures Framed()
      ensures depth == old(depth)
      ensures ok ==> Valid() && starved == old(starved) && Printed() == old(Printed()) + s
      ensures ok ==> old(offset) + needed + 1 <= Cap()
      ensures !ok ==> starved || old(offset) + needed + 1 > Cap()
    {
      ok := Ensure(needed);
      if !ok {
        return;
      }
      Write(offset, if terminate then s + ['\0'] else s);
      offset := offset + |s|;
      assert terminate ==> buffer[..offset] == buffer[..offset + 1][..offset];
    }

    /** What it takes to hold a text that has just been written with its NUL. */
    lemma Ended(text: string)
      requires buffer != null && length <= buffer.Length && length <= INT_MAX && offset <= |text| < length
      requires buffer[..|text| + 1] == text + ['\0'] && NulFree(text[offset..])
      ensures Holds(text)
    {
      assert buffer[..|text|] == buffer[..|text| + 1][..|text|] == text;
      assert buffer[|text|] == buffer[..|text| + 1][|text|];
    }

    /** print_number, the digits being those sprintf gives. */
    method PrintNumber(digits: string) returns (ok: bool)
      requires Valid() && NulFree(digits) && |digits| <= 25
      modifies this, buffer
      ensures Framed()
      ensures ok ==>
        && depth == old(depth) && starved == old(starved)
        && Holds(old(Printed()) + digits) && old(offset) + |digits| + 1 <= Cap()
      ensures !ok ==> starved || old(offset) + |digits| + 1 > Cap()
    {
      ok := Ensure(|digits|);
      if !ok {
        return;
      }
      ghost var text := Printed() + digits;
      Write(offset, digits + ['\0']);
      offset := offset + |digits|;
      assert buffer[..|text| + 1] == text + ['\0'];
      Ended(text);
    }

    /** The counting loop of print_string_ptr. */
    method CountEscapes(input: string) returns (n: nat)
      ensures n == EscapeCharacters(input)
    {
      hide EscapeCharacters;
      n := 0;
      var i := 0;
      while i < |input|
        invariant 0 <= i <= |input| && EscapeCharacters(input) == n + EscapeCharacters(input[i..])
      {
        CountStep(input[i..]);
        assert input[i..][1..] == input[i + 1..];
        var c := input[i];
        if c == '\"' || c == '\\' || c == '\U{8}' || c == '\U{c}' || c == '\n' || c == '\r' || c == '\t' {
          n := n + 1;
        } else if c < ' ' {
          n := n + 5;
        }
        i := i + 1;
      }
      CountStep(input[i..]);
    }

    /** What that loop writes for one byte. */
    method WriteEscaped(c: char, at: nat) returns (end: nat)
      requires buffer != null && at + |EscapeChar(c)| <= buffer.Length && c as nat < 0x100
      modifies buffer
      ensures end == at + |EscapeChar(c)| && buffer[..end] == old(buffer[..at]) + EscapeChar(c)
    {
      if c as nat > 31 && c != '\"' && c != '\\' {
        Write(at, [c]);
        return at + 1;
      }
      var letter: Option<char> := None;
      match c {
        case '\\' => letter := Some('\\');
        case '\"' => letter := Some('\"');
        case '\U{8}' => letter := Some('b');
        case '\U{c}' => letter := Some('f');
        case '\n' => letter := Some('n');
        case '\r' => letter := Some('r');
        case '\t' => letter := Some('t');
        case _ =>
      }
      if letter.Some? {
        Write(at, ['\\', letter.value]);
        end := at + 2;
      } else {
        HexFour(c as nat);
        Write(at, ['\\', 'u'] + FourHex(c as nat));
        end := at + 6;
      }
    }

    /** The copying loop of print_string_ptr, from behind the opening quote on. */
    method CopyEscaped(input: string, at: nat) returns (end: nat)
      requires buffer != null && at + |Escape(input)| <= buffer.Length && Bytes(input)
      modifies buffer
      ensures end == at + |Escape(input)| && buffer[..end] == old(buffer[..at]) + Escape(input)
    {
      hide Escape, EscapeChar;
      end := at;
      var i := 0;
      EscapeSteps(input);
      while i < |input|
        invariant 0 <= i <= |input| && end <= buffer.Length
        invariant buffer[..end] + Escape(input[i..]) == old(buffer[..at]) + Escape(input)
      {
        EscapeSteps(input[i..]);
        assert input[i..][1..] == input[i + 1..];
        ghost var was := buffer[..end];
        ghost var rest := Escape(input[i + 1..]);
        LengthsAgree(was, EscapeChar(input[i]), rest, old(buffer[..at]) + Escape(input));
        end := WriteEscaped(input[i], end);
        assert was + EscapeChar(input[i]) + rest == was + (EscapeChar(input[i]) + rest);
        i := i + 1;
      }
      EscapeSteps(input[i..]);
      assert buffer[..end] + [] == buffer[..end];
    }

    /** The quoted string and its NUL, once there is room for them. */
    method WriteQuoted(input: string, escapes: nat)
      requires Valid() && CText(input) && escapes == EscapeCharacters(input)
      requires offset + |Quote(input)| < length
      modifies buffer
      ensures Holds(old(Printed()) + Quote(input))
    {
      hide Escape, EscapeCharacters;
      ghost var before, text := Printed(), Printed() + Quote(input);
      Write(offset, "\"");
      var end := offset + 1 + |input| + escapes;
      if escapes == 0 {
        EscapeOfPlain(input);
        Write(offset + 1, input);
      } else {
        end := CopyEscaped(input, offset + 1);
      }
      QuotedTexts(before, input);
      assert buffer[..end] == before + ['\"'] + Escape(input);
      Write(end, "\"\0");
      EscapeNulFree(input);
      Ended(text);
    }

    /** The opening quote, the escaped text, the closing quote and the NUL, grouped as they are written. */
    lemma QuotedTexts(before: string, input: string)
      ensures before + "\"" + Escape(input) == before + ['\"'] + Escape(input)
      ensures before + ['\"'] + Escape(input) + "\"\0" == (before + Quote(input)) + ['\0']
      ensures (before + Quote(input))[|before|..] == Quote(input)
    {
      hide Escape;
      assert "\"\0" == ['\"'] + ['\0'];
    }

    /** print_string_ptr */
    method PrintString(input: string) returns (ok: bool)
      requires Valid() && CText(input)
      modifies this, buffer
      ensures Framed()
      ensures ok ==>
        && depth == old(depth) && starved == old(starved)
        && Holds(old(Printed()) + Quote(input)) && old(offset) + |Quote(input)| + 2 <= Cap()
      ensures !ok ==> starved || old(offset) + |Quote(input)| + 2 > Cap()
    {
      hide Escape, EscapeCharacters;
      var escapes := CountEscapes(input);
      var outputLength := |input| + escapes;
      ok := Ensure(outputLength + 3);
      if ok {
        WriteQuoted(input, escapes);
      }
    }

    /** print_value */
    method PrintValue(v: Json) returns (ok: bool)
      requires Valid() && Printable(v)
      modifies this, buffer
      ensures Framed()
      ensures ok ==>
        && depth == old(depth) && starved == old(starved)
        && Holds(old(Printed()) + Text(v, format, old(depth)))
        && old(offset) + Need(v, format, old(depth)) <= Cap()
      ensures !ok ==> starved || old(offset) + Need(v, format, old(depth)) > Cap()
      decreases v, 1
    {
      hide Holds, Quote, TextItems, TextMembers;
      match v
      case Null => ok := PrintWord("null");
      case False => ok := PrintWord("false");
      case True => ok := PrintWord("true");
      case Number(digits) =>
        NumberNulFree(digits);
        ok := PrintNumber(digits);
      case Str(s) => ok := PrintString(s);
      case Arr(items) => ok := PrintArray(items);
      case Obj(members) => ok := PrintObject(members);
    }

    /** print_value, then update_offset. */
    method PrintOn(v: Json) returns (ok: bool)
      requires Valid() && Printable(v)
      modifies this, buffer
      ensures Framed()
      ensures ok ==>
        && depth == old(depth) && starved == old(starved) && Valid()
        && Printed() == old(Printed()) + Text(v, format, depth)
        && old(offset) + Need(v, format, depth) <= Cap() && offset < length && buffer[offset] == '\0'
      ensures !ok ==> starved || old(offset) + Need(v, format, old(depth)) > Cap()
      decreases v, 2
    {
      hide Text, Printed, Holds;
      ghost var text := Printed() + Text(v, format, depth);
      ok := PrintValue(v);
      if ok {
        UpdateOffset(text);
      }
    }

    /** One round of print_array's loop. */
    method PrintElement(v: Json, more: bool) returns (ok: bool)
      requires Valid() && Printable(v)
      modifies this, buffer
      ensures Framed()
      ensures ok ==>
        && depth == old(depth) && starved == old(starved) && Valid()
        && Printed() == old(Printed()) + (Text(v, format, depth) + Comma(more, format))
      ensures !ok ==> starved || old(offset) + |Text(v, format, old(depth)) + Comma(more, format)| + 2 > Cap()
      decreases v, 3
    {
      hide Text, Printed;
      ok := PrintOn(v);
      if ok && more {
        ok := Append(Comma(true, format), (if format then 2 else 1) + 1, true);
      }
    }

    /** The loop of print_array. */
    method PrintItems(items: seq<Json>) returns (ok: bool)
      requires Valid() && PrintableItems(items)
      modifies this, buffer
      ensures Framed()
      ensures ok ==>
        && depth == old(depth) && starved == old(starved) && Valid()
        && Printed() == old(Printed()) + TextItems(items, format, depth)
      ensures !ok ==> starved || old(offset) + |TextItems(items, format, old(depth))| + 2 > Cap()
      decreases items, 0
    {
      hide Text, TextItems, Comma, Printable, PrintableItems, Printed;
      ghost var whole := Printed() + TextItems(items, format, depth);
      var i := 0;
      ok := true;
      assert items[0..] == items;
      while i < |items|
        invariant 0 <= i <= |items| && PrintableItems(items[i..])
        invariant ok && Framed() && Valid() && depth == old(depth) && starved == old(starved)
        invariant Printed() + TextItems(items[i..], format, depth) == whole
      {
        ItemsSplit(items, i, format, depth);
        Regroup(Printed(), Text(items[i], format, depth) + Comma(i + 1 < |items|, format),
          TextItems(items[i + 1..], format, depth));
        ok := PrintElement(items[i], i + 1 < |items|);
        if !ok {
          return;
        }
        i := i + 1;
      }
      NoItems(items[i..], format, depth);
    }

    /** print_array */
    method PrintArray(items: seq<Json>) returns (ok: bool)
      requires Valid() && PrintableItems(items)
      modifies this, buffer
      ensures Framed()
      ensures ok ==>
        && depth == old(depth) && starved == old(starved)
        && Holds(old(Printed()) + Text(Arr(items), format, old(depth)))
        && old(offset) + Need(Arr(items), format, old(depth)) <= Cap()
      ensures !ok ==> starved || old(offset) + Need(Arr(items), format, old(depth)) > Cap()
      decreases items, 1
    {
      hide Text, TextItems, PrintableItems, Printed, Holds;
      ghost var before := Printed();
      ArrayText(items, format, depth);
      ok := Append("[", 1, false);
      if !ok {
        return;
      }
      depth := depth + 1;
      ok := PrintItems(items);
      if !ok {
        return;
      }
      RegroupThree(before, "[", TextItems(items, format, depth), "]");
      ok := PrintWord("]");
      if ok {
        depth := depth - 1;
      }
    }

    /** In one round of print_object's loop: indentation, name and colon. */
    method PrintName(key: string) returns (ok: bool)
      requires Valid() && CText(key)
      modifies this, buffer
      ensures Framed()
      ensures ok ==>
        && depth == old(depth) && starved == old(starved) && Valid()
        && Printed() == old(Printed()) + (Indent(format, depth) + Quote(key) + Colon(format))
      ensures !ok ==> starved || old(offset) + |Indent(format, old(depth)) + Quote(key) + Colon(format)| + 1 > Cap()
    {
      hide Quote, Printed, Holds;
      ghost var before := Printed();
      if format {
        ok := Append(Tabs(depth), depth, false);
        if !ok {
          return;
        }
      }
      assert Printed() == before + Indent(format, depth);
      ghost var named := Printed() + Quote(key);
      ok := PrintString(key);
      if !ok {
        return;
      }
      UpdateOffset(named);
      ok := Append(Colon(format), if format then 2 else 1, false);
    }

    /** In one round of print_object's loop: value, comma and line end. */
    method PrintMemberValue(v: Json, more: bool) returns (ok: bool)
      requires Valid() && Printable(v)
      modifies this, buffer
      ensures Framed()
      ensures ok ==>
        && depth == old(depth) && starved == old(starved) && Valid()
        && Printed() == old(Printed()) + (Text(v, format, depth) + LineEnd(more, format))
      ensures !ok ==> starved || old(offset) + |Text(v, format, old(depth)) + LineEnd(more, format)| + 2 > Cap()
      decreases v, 3
    {
      hide Text, Printed;
      ok := PrintOn(v);
      if ok {
        ok := Append(LineEnd(more, format), (if format then 1 else 0) + (if more then 1 else 0) + 1, true);
      }
    }

    /** One round of print_object's loop. */
    method PrintMember(m: Member, more: bool) returns (ok: bool)
      requires Valid() && CText(m.key) && Printable(m.value)
      modifies this, buffer
      ensures Framed()
      ensures ok ==>
        && depth == old(depth) && starved == old(starved) && Valid()
        && Printed() == old(Printed()) + TextMember(m, more, format, depth)
      ensures !ok ==> starved || old(offset) + |TextMember(m, more, format, old(depth))| + 2 > Cap()
      decreases m, 3
    {
      hide Text, TextMember, Quote, Indent, Colon, LineEnd, Printed;
      MemberSplit(m, more, format, depth);
      ghost var before := Printed();
      ghost var name := Indent(format, depth) + Quote(m.key) + Colon(format);
      ghost var value := Text(m.value, format, depth) + LineEnd(more, format);
      ok := PrintName(m.key);
      if !ok {
        return;
      }
      ok := PrintMemberValue(m.value, more);
      assert before + name + value == before + (name + value);
    }

    /** The loop of print_object. */
    method PrintAllMembers(members: seq<Member>) returns (ok: bool)
      requires Valid() && PrintableMembers(members)
      modifies this, buffer
      ensures Framed()
      ensures ok ==>
        && depth == old(depth) && starved == old(starved) && Valid()
        && Printed() == old(Printed()) + TextMembers(members, format, depth)
      ensures !ok ==> starved || old(offset) + |TextMembers(members, format, old(depth))| + 2 > Cap()
      decreases members, 0
    {
      hide Text, TextMembers, TextMember, Printable, PrintableMembers, Printed;
      ghost var whole := Printed() + TextMembers(members, format, depth);
      var i := 0;
      ok := true;
      assert members[0..] == members;
      while i < |members|
        invariant 0 <= i <= |members| && PrintableMembers(members[i..])
        invariant ok && Framed() && Valid() && depth == old(depth) && starved == old(starved)
        invariant Printed() + TextMembers(members[i..], format, depth) == whole
      {
        MembersSplit(members, i, format, depth);
        Regroup(Printed(), TextMember(members[i], i + 1 < |members|, format, depth),
          TextMembers(members[i + 1..], format, depth));
        ok := PrintMember(members[i], i + 1 < |members|);
        if !ok {
          return;
        }
        i := i + 1;
      }
      NoMembers(members[i..], format, depth);
    }

    /** print_object */
    method PrintObject(members: seq<Member>) returns (ok: bool)
      requires Valid() && PrintableMembers(members)
      modifies this, buffer
      ensures Framed()
      ensures ok ==>
        && depth == old(depth) && starved == old(starved)
        && Holds(old(Printed()) + Text(Obj(members), format, old(depth)))
        && old(offset) + Need(Obj(members), format, old(depth)) <= Cap()
      ensures !ok ==> starved || old(offset) + Need(Obj(members), format, old(depth)) > Cap()
      decreases members, 1
    {
      hide Text, TextMembers, PrintableMembers, NewLine, Closing, Printed, Holds;
      ghost var before, closing := Printed(), Closing(format, depth);
      ObjectTextFlat(members, format, depth);
      ClosingIs(format, depth);
      ok := Append("{" + NewLine(format), (if format then 2 else 1) + 1, false);
      if !ok {
        return;
      }
      depth := depth + 1;
      ok := PrintAllMembers(members);
      if !ok {
        return;
      }
      RegroupThree(before, "{" + NewLine(format), TextMembers(members, format, depth), closing);
      ok := PrintWord((if format then Tabs(depth - 1) else "") + "}");
      if ok {
        depth := depth - 1;
      }
    }
  }

  lemma ObjectTextFlat(members: seq<Member>, format: bool, depth: nat)
    ensures Text(Obj(members), format, depth)
         == ("{" + NewLine(format)) + (TextMembers(members, format, depth + 1) + Closing(format, depth))
  {
    hide TextMembers;
  }

  lemma RegroupThree(s: string, t: string, u: string, w: string)
    ensures s + (t + (u + w)) == s + t + u + w
  {
  }

  lemma NoItems(items: seq<Json>, format: bool, depth: nat)
    requires items == []
    ensures TextItems(items, format, depth) == ""
  {
  }

  lemma NoMembers(members: seq<Member>, format: bool, depth: nat)
    requires members == []
    ensures TextMembers(members, format, depth) == ""
  {
  }

  lemma ClosingIs(format: bool, depth: nat)
    ensures Closing(format, depth) == (if format then Tabs(depth) else "") + "}" && NulFree(Closing(format, depth))
    ensures NewLine(format) == if format then "\n" else ""
  {
  }

  lemma MemberSplit(m: Member, more: bool, format: bool, depth: nat)
    ensures TextMember(m, more, format, depth)
         == (Indent(format, depth) + Quote(m.key) + Colon(format))
             + (Text(m.value, format, depth) + LineEnd(more, format))
  {
    hide Text, Quote;
  }

  lemma ItemsSplit(items: seq<Json>, i: nat, format: bool, depth: nat)
    requires i < |items| && PrintableItems(items[i..])
    ensures Printable(items[i]) && PrintableItems(items[i + 1..])
    ensures TextItems(items[i..], format, depth)
         == (Text(items[i], format, depth) + Comma(i + 1 < |items|, format)) + TextItems(items[i + 1..], format, depth)
  {
    hide Text;
    assert items[i..][1..] == items[i + 1..];
  }

  lemma MembersSplit(members: seq<Member>, i: nat, format: bool, depth: nat)
    requires i < |members| && PrintableMembers(members[i..])
    ensures CText(members[i].key) && Printable(members[i].value) && PrintableMembers(members[i + 1..])
    ensures TextMembers(members[i..], format, depth)
         == TextMember(members[i], i + 1 < |members|, format, depth) + TextMembers(members[i + 1..], format, depth)
  {
    hide TextMember;
    assert members[i..][1..] == members[i + 1..];
  }

  lemma NumberNulFree(digits: string)
    requires NumberText(digits)
    ensures NulFree(digits)
  {
  }

  lemma CountStep(s: string)
    ensures s == [] ==> EscapeCharacters(s) == 0
    ensures s != [] ==>
      EscapeCharacters(s) == EscapeCharacters(s[1..])
        + if ShortEscape(s[0]).Some? then 1 else if s[0] < ' ' then 5 else 0
  {
    hide EscapeChar;
    if s != [] {
      EscapeSize(s[0]);
    }
  }

  lemma EscapeSize(c: char)
    ensures |EscapeChar(c)| == 1 + if ShortEscape(c).Some? then 1 else if c < ' ' then 5 else 0
  {
    hide HexDigit;
  }

  lemma EscapeSteps(s: string)
    ensures s == [] ==> Escape(s) == []
    ensures s != [] ==> Escape(s) == EscapeChar(s[0]) + Escape(s[1..])
    ensures s[0..] == s
  {
  }

  /** The digits of sprintf with "%04x". */
  function FourHex(n: nat): (h: string)
    requires n < 0x1_0000
    ensures |h| == 4
  {
    [HexDigit(n / 0x1000), HexDigit(n / 0x100 % 0x10), HexDigit(n / 0x10 % 0x10), HexDigit(n % 0x10)]
  }

  lemma HexFour(n: nat)
    requires n < 0x100
    ensures FourHex(n) == ['0', '0', HexDigit(n / 16 % 16), HexDigit(n % 16)]
  {
  }

  lemma LengthsAgree(s: string, t: string, u: string, whole: string)
    requires s + (t + u) == whole
    ensures |s| + |t| <= |whole|
  {
  }

  // ---------------------------------------------------------------- entry points

  /** The array holds the C string s. */
  ghost predicate IsCString(space: array<char>, s: string)
    reads space
  {
    |s| < space.Length && space[..|s|] == s && space[|s|] == '\0' && NulFree(s)
  }

  /** print(), behind cJSON_Print and cJSON_PrintUnformatted: the first 256 bytes count for nothing, and the
      text is handed out in a block of its own. */
  method Print(v: Json, format: bool, reallocate: bool) returns (printed: array?<char>, starved: bool)
    requires Printable(v)
    ensures printed != null ==> IsCString(printed, Text(v, format, 0)) && Need(v, format, 0) <= INT_MAX
    ensures printed == null ==> starved || Need(v, format, 0) > INT_MAX
  {
    hide Text;
    printed, starved := null, false;
    ghost var text := Text(v, format, 0);
    TextNulFree(v, format, 0);
    if * {
      starved := true;
      return;
    }
    var space := new char[256];
    var p := new PrintBuffer(space, 0, false, format, reallocate);
    assert p.Printed() + text == text;
    var ok := p.PrintOn(v);
    starved := p.starved;
    if !ok {
      return;
    }
    ghost var was := p.buffer[..p.offset + 1];
    var last := if reallocate then p.length else p.offset + 1;
    ok := p.Grow(last, last);
    starved := p.starved;
    if ok {
      assert p.buffer[..p.offset + 1] == p.buffer[..last][..p.offset + 1] == was;
      assert p.buffer[p.offset] == was[p.offset] && p.buffer[..p.offset] == was[..p.offset] == text;
      printed := p.buffer;
      if !reallocate {
        printed[p.offset] := '\0';
      }
    }
  }

  /** cJSON_PrintPreallocated: it succeeds exactly when the text, its NUL and, unless the value is a number,
      one byte more fit. */
  method PrintPreallocated(v: Json, buf: array<char>, len: int, format: bool) returns (ok: bool)
    requires Printable(v) && len <= buf.Length && len <= INT_MAX
    modifies buf
    ensures ok <==> Need(v, format, 0) <= len
    ensures ok ==> IsCString(buf, Text(v, format, 0))
  {
    hide Text;
    TextNulFree(v, format, 0);
    if len < 0 {
      return false;
    }
    var p := new PrintBuffer(buf, len, true, format, false);
    ghost var text := Text(v, format, 0);
    assert p.Printed() + text == text;
    ok := p.PrintValue(v);
  }
}