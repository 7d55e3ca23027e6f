/** The printer: a growing or fixed byte buffer whose offset trails the text behind it. */
module JsonPrinter {
  import opened Bytes
  import opened CText
  import opened Hex
  import opened JsonItems
  import opened JsonList
  import opened JsonTree
  import opened JsonText
  import Decimal

  const INT_MAX := 0x7FFF_FFFF

  /** The bytes a value needs behind its text before the last reservation succeeds. */
  function Slack(j: Json): nat {
    if j.Number? then 1 else 2
  }

  class PrintBuffer {
    var buffer: array<char>
    var length: nat
    var offset: nat
    var depth: nat
    const noalloc: bool
    const format: bool
    /** The end of the space that the last reservation handed out. */
    ghost var granted: nat

    ghost predicate Valid()
      reads this
    {
      && length <= buffer.Length && length <= INT_MAX
      && (offset < length || (length == 0 && offset == 0))
      && granted <= length
    }

    ghost function Written(): string
      reads this, buffer
      requires offset <= buffer.Length
    {
      buffer[..offset]
    }

    ghost function Beyond(): string
      reads this, buffer
      requires length <= buffer.Length
    {
      buffer[length..]
    }

    /** How far the text can ever reach. */
    ghost function Capacity(): nat
      reads this
    {
      if noalloc then length else INT_MAX
    }

    /** The whole text `all` is in place and terminated, and the offset is at most at its end. */
    ghost predicate InPlace(all: string)
      reads this, buffer
    {
      && offset <= |all| < length <= buffer.Length
      && buffer[..|all|] == all
      && buffer[|all|] == '\0'
    }

    /** What every step keeps: a fixed buffer stays the same, and so does everything behind its length. */
    twostate predicate Kept()
      requires old(Valid())
      reads this, buffer
    {
      && Valid()
      && (buffer == old(buffer) || fresh(buffer))
      && Capacity() == old(Capacity())
      && (noalloc ==> buffer == old(buffer) && length == old(length) && Beyond() == old(Beyond()))
    }

    constructor (buffer: array<char>, length: nat, noalloc: bool, format: bool)
      requires length <= buffer.Length && length <= INT_MAX
      ensures Valid() && this.buffer == buffer && this.length == length && offset == 0 && depth == 0
      ensures this.noalloc == noalloc && this.format == format
    {
      this.buffer := buffer;
      this.length := length;
      this.noalloc := noalloc;
      this.format := format;
      offset, depth, granted := 0, 0, 0;
    }

    /** Reserves `needed` more bytes and one for a terminator, moving the text if the buffer is too short. */
    method Ensure(needed: nat) returns (ok: bool)
      requires Valid()
      modifies this`buffer, this`length, this`granted
      ensures Kept() && Written() == old(Written())
      ensures ok <==> old(offset) + needed + 1 <= old(Capacity())
      ensures ok ==> granted == offset + needed + 1
    {
      if length > 0 && offset >= length {
        return false;
      }
      if needed > INT_MAX {
        return false;
      }
      var needed := needed + offset + 1;
      if needed <= length {
        granted := needed;
        return true;
      }
      if noalloc {
        return false;
      }
      var newsize;
      if needed > INT_MAX / 2 {
        if needed <= INT_MAX {
          newsize := INT_MAX;
        } else {
          return false;
        }
      } else {
        newsize := needed * 2;
      }
      Reallocate(newsize);
      granted := needed;
      ok := true;
    }

    /** The old contents, as far as both sizes reach, stay in place. */
    method Reallocate(newsize: nat)
      requires offset <= buffer.Length && offset <= newsize
      modifies this`buffer, this`length
      ensures fresh(buffer) && buffer.Length == newsize == length
      ensures Written() == old(Written())
    {
      var newbuffer := new char[newsize];
      for i := 0 to if buffer.Length < newsize then buffer.Length else newsize
        invariant buffer == old(buffer) && i <= newsize && i <= buffer.Length
        invariant newbuffer[..i] == buffer[..i]
      {
        newbuffer[i] := buffer[i];
      }
      assert newbuffer[..offset] == buffer[..offset];
      buffer := newbuffer;
      length := newsize;
    }

    /** Writes `text` at the output pointer and advances the offset behind it. */
    method Store(text: string)
      requires Valid() && offset + |text| <= granted && offset + |text| < length
      modifies this`offset, buffer
      ensures Kept() && Written() == old(Written()) + text
    {
      Copy(text);
      offset := offset + |text|;
    }

    method Copy(text: string)
      requires Valid() && offset + |text| <= granted
      modifies buffer
      ensures buffer[..offset + |text|] == old(Written()) + text
      ensures Beyond() == old(Beyond())
    {
      for i := 0 to |text|
        invariant buffer[..offset + i] == old(Written()) + text[..i]
        invariant Beyond() == old(Beyond())
      {
        buffer[offset + i] := text[i];
      }
      assert text[..|text|] == text;
    }

    method Terminate()
      requires Valid() && offset < granted
      modifies buffer
      ensures Kept() && InPlace(old(Written())) && Written() == old(Written())
    {
      buffer[offset] := '\0';
    }

    /** Writes `text` and its terminator at the output pointer; the offset stays in front of it. */
    method Leave(text: string)
      requires Valid() && offset + |text| < granted
      modifies buffer
      ensures Kept() && Written() == old(Written()) && InPlace(old(Written()) + text)
    {
      Copy(text);
      buffer[offset + |text|] := '\0';
    }

    /** Adds the length of the zero-terminated text behind the offset. */
    method UpdateOffset(ghost all: string)
      requires Valid() && InPlace(all) && Without(all[offset..], '\0')
      modifies this`offset
      ensures Kept() && Written() == all
    {
      var strlen := 0;
      while buffer[offset + strlen] != '\0'
        invariant offset + strlen <= |all|
        decreases |all| - (offset + strlen)
      {
        strlen := strlen + 1;
      }
      offset := offset + strlen;
    }

    /** One character of a string, escaped, at position `at`; `sprintf` also terminates what it writes. */
    method PutEscaped(c: char, at: nat)
      requires Valid() && offset <= at && at + |Escape(c)| < granted
      modifies buffer
      ensures buffer[..at + |Escape(c)|] == old(buffer[..at]) + Escape(c)
      ensures Beyond() == old(Beyond())
    {
      if c as nat > 31 && c != '\"' && c != '\\' {
        buffer[at] := c;
      } else {
        buffer[at] := '\\';
        if c == '\\' {
          buffer[at + 1] := '\\';
        } else if c == '\"' {
          buffer[at + 1] := '\"';
        } else if c as nat == 8 {
          buffer[at + 1] := 'b';
        } else if c as nat == 12 {
          buffer[at + 1] := 'f';
        } else if c == '\n' {
          buffer[at + 1] := 'n';
        } else if c == '\r' {
          buffer[at + 1] := 'r';
        } else if c == '\t' {
          buffer[at + 1] := 't';
        } else {
          buffer[at + 1], buffer[at + 2], buffer[at + 3] := 'u', '0', '0';
          buffer[at + 4], buffer[at + 5] := HexLower(c as nat / 16), HexLower(c as nat % 16);
          buffer[at + 6] := '\0';
        }
      }
    }

    /** How many characters escaping adds. */
    method CountEscapes(input: Text) returns (escape_characters: nat)
      ensures |input| + escape_characters == |Escaped(input)|
    {
      escape_characters := 0;
      for i := 0 to |input|
        invariant i + escape_characters == |Escaped(input[..i])|
      {
        EscapedNext(input, i);
        if input[i] == '\"' || input[i] == '\\' || input[i] as nat == 8 || input[i] as nat == 12 || input[i] == '\n'
          || input[i] == '\r' || input[i] == '\t' {
          escape_characters := escape_characters + 1;
        } else if input[i] as nat < 32 {
          escape_characters := escape_characters + 5;
        }
      }
      assert input[..|input|] == input;
    }

    /** The next character of the escaped text. */
    method PutNext(input: Text, i: nat, at: nat, ghost before: string) returns (output_pointer: nat)
      requires Valid() && i < |input|
      requires offset <= at < granted && at == |before| + |Escaped(input[..i])| && |before| + |Escaped(input)| < granted
      requires buffer[..at] == before + Escaped(input[..i])
      modifies buffer
      ensures output_pointer == |before| + |Escaped(input[..i + 1])| && at <= output_pointer < granted
      ensures buffer[..output_pointer] == before + Escaped(input[..i + 1])
      ensures Beyond() == old(Beyond())
    {
      hide Escape, Escaped;
      EscapedNext(input, i);
      PutEscaped(input[i], at);
      output_pointer := at + |Escape(input[i])|;
    }

    /** The escaped characters behind the opening quotation mark. */
    method CopyEscaped(input: Text)
      requires Valid() && offset + 1 + |Escaped(input)| < granted
      modifies buffer
      ensures buffer[..offset + 1 + |Escaped(input)|] == old(buffer[..offset + 1]) + Escaped(input)
      ensures Beyond() == old(Beyond())
    {
      ghost var before := buffer[..offset + 1];
      var output_pointer := offset + 1;
      for i := 0 to |input|
        invariant output_pointer == |before| + |Escaped(input[..i])| && offset < output_pointer < granted
        invariant buffer[..output_pointer] == before + Escaped(input[..i])
        invariant Beyond() == old(Beyond())
      {
        output_pointer := PutNext(input, i, output_pointer, before);
      }
      assert input[..|input|] == input;
    }

    method OpenQuote()
      requires Valid() && offset < granted
      modifies buffer
      ensures buffer[..offset + 1] == old(Written()) + "\""
      ensures Beyond() == old(Beyond())
    {
      buffer[offset] := '\"';
    }

    method CloseQuote(at: nat)
      requires Valid() && at + 1 < granted
      modifies buffer
      ensures buffer[..at + 1] == old(buffer[..at]) + "\"" && buffer[at + 1] == '\0'
      ensures Beyond() == old(Beyond())
    {
      buffer[at] := '\"';
      buffer[at + 1] := '\0';
    }

    /** Quotation mark, escaped characters, quotation mark, terminator. */
    method LeaveEscaped(input: Text, output_length: nat)
      requires Valid() && output_length == |Escaped(input)| && offset + output_length + 2 < granted
      modifies buffer
      ensures Kept() && Written() == old(Written()) && InPlace(old(Written()) + Quoted(input))
    {
      hide Escaped;
      ghost var w := Written();
      OpenQuote();
      CopyEscaped(input);
      CloseQuote(offset + 1 + output_length);
      QuotedParts(w, Escaped(input));
      ghost var all := w + Quoted(input);
      assert buffer[..|all|] == all;
      assert buffer[..offset] == buffer[..|all|][..offset];
    }

    /** No characters have to be escaped. */
    method LeavePlain(input: Text)
      requires Valid() && |input| == |Escaped(input)| && offset + |input| + 2 < granted
      modifies buffer
      ensures Kept() && Written() == old(Written()) && InPlace(old(Written()) + Quoted(input))
    {
      NothingEscaped(input);
      Leave("\"" + input + "\"");
    }

    method LeaveString(input: Text, output_length: nat)
      requires Valid() && output_length == |Escaped(input)| && offset + output_length + 2 < granted
      modifies buffer
      ensures Kept() && Written() == old(Written()) && InPlace(old(Written()) + Quoted(input))
    {
      if output_length == |input| {
        LeavePlain(input);
      } else {
        LeaveEscaped(input, output_length);
      }
    }

    method PrintEmpty() returns (ok: bool)
      requires Valid()
      modifies this, buffer
      ensures Kept() && Written() == old(Written()) && depth == old(depth)
      ensures ok <==> old(offset) + 4 <= old(Capacity())
      ensures ok ==> InPlace(old(Written()) + "\"\"")
    {
      ok := Ensure(3);
      if ok {
        Leave("\"\"");
      }
    }

    method PrintText(text: Text) returns (ok: bool)
      requires Valid()
      modifies this, buffer
      ensures Kept() && Written() == old(Written()) && depth == old(depth)
      ensures ok <==> old(offset) + |Quoted(text)| + 2 <= old(Capacity())
      ensures ok ==> InPlace(old(Written()) + Quoted(text))
    {
      var escape_characters := CountEscapes(text);
      var output_length := |text| + escape_characters;
      QuotedLength(text, output_length);
      ok := Ensure(output_length + 3);
      if ok {
        LeaveString(text, output_length);
      }
    }

    /** Prints a string with its quotation marks; the offset stays in front of it. */
    method PrintStringPtr(input: Option<Text>) returns (ok: bool)
      requires Valid()
      modifies this, buffer
      ensures Kept() && Written() == old(Written()) && depth == old(depth)
      ensures ok <==> old(offset) + |Quoted(NameOf(input))| + 2 <= old(Capacity())
      ensures ok ==> InPlace(old(Written()) + Quoted(NameOf(input)))
    {
      match input
      case None =>
        QuotedEmpty();
        ok := PrintEmpty();
      case Some(text) =>
        ok := PrintText(text);
    }

    /** A number is written behind the offset, which moves along. */
    method PrintNumber(n: int) returns (ok: bool)
      requires Valid()
      modifies this, buffer
      ensures Kept() && depth == old(depth)
      ensures ok <==> old(offset) + |Decimal.Text(n)| + 1 <= old(Capacity())
      ensures ok ==> InPlace(old(Written()) + Decimal.Text(n)) && offset >= old(offset)
    {
      var number_buffer := Decimal.Text(n);
      ok := Ensure(|number_buffer|);
      if ok {
        Store(number_buffer);
        Terminate();
      }
    }

    /** Reserves one byte more than a literal needs, terminator included. */
    method PrintLiteral(literal: string) returns (ok: bool)
      requires Valid()
      modifies this, buffer
      ensures Kept() && depth == old(depth)
      ensures ok <==> old(offset) + |literal| + 2 <= old(Capacity())
      ensures ok ==> InPlace(old(Written()) + literal) && offset == old(offset)
    {
      ok := Ensure(|literal| + 1);
      if ok {
        Leave(literal);
      }
    }

    /** Prints the tree an item holds behind the offset. It succeeds exactly when the text and its slack fit. */
    method PrintValue(item: Item, ghost key: Option<Text>, ghost j: Json) returns (ok: bool)
      requires Valid() && Holds(item, key, j)
      modifies this, buffer
      ensures Kept()
      ensures ok <==> old(offset) + |Value(j, format, old(depth))| + Slack(j) <= old(Capacity())
      ensures ok ==> InPlace(old(Written()) + Value(j, format, old(depth))) && offset >= old(offset)
      ensures ok ==> depth == old(depth)
      decreases j, 0
    {
      hide Value, HoldAll, Below, Linked;
      TextOfOwn(item, key, j, format, depth);
      match item.kind
      case NULL => ok := PrintLiteral("null");
      case FALSE => ok := PrintLiteral("false");
      case TRUE => ok := PrintLiteral("true");
      case NUMBER => ok := PrintNumber(item.valuedouble);
      case STRING => ok := PrintText(item.valuestring);
      case ARRAY => ok := PrintArray(item, key, j.child);
      case OBJECT => ok := PrintObject(item, key, j.child);
    }

    /** Prints the value and moves the offset behind its text. */
    method PrintAndUpdate(item: Item, ghost key: Option<Text>, ghost j: Json) returns (ok: bool)
      requires Valid() && Holds(item, key, j)
      modifies this, buffer
      ensures Kept()
      ensures ok <==> old(offset) + |Value(j, format, old(depth))| + Slack(j) <= old(Capacity())
      ensures ok ==> Written() == old(Written()) + Value(j, format, old(depth)) && depth == old(depth)
      decreases j, 1
    {
      hide Holds;
      ghost var w, t := Written(), Value(j, format, depth);
      ok := PrintValue(item, key, j);
      if ok {
        ValueIsText(j, format, depth);
        SuffixWithout(w, t, offset);
        UpdateOffset(w + t);
      }
    }

    /** Prints a whole document; the text stays terminated. */
    method PrintTop(item: Item, ghost key: Option<Text>, ghost j: Json) returns (ok: bool)
      requires Valid() && offset == 0 && depth == 0 && Holds(item, key, j)
      modifies this, buffer
      ensures Kept()
      ensures ok <==> |Value(j, format, 0)| + Slack(j) <= old(Capacity())
      ensures ok ==> IsTextOf(buffer, Value(j, format, 0)) && offset == |Value(j, format, 0)|
    {
      hide Holds;
      ghost var t := Value(j, format, 0);
      assert Written() + t == t;
      ok := PrintValue(item, key, j);
      if ok {
        ValueIsText(j, format, 0);
        SuffixWithout("", t, offset);
        assert "" + t == t;
        UpdateOffset(t);
      }
    }

    /** Text without a terminator, for which `needed` bytes are reserved. */
    method Put(text: string, needed: nat) returns (ok: bool)
      requires Valid() && |text| <= needed
      modifies this, buffer
      ensures Kept() && depth == old(depth)
      ensures ok <==> old(offset) + needed + 1 <= old(Capacity())
      ensures ok ==> Written() == old(Written()) + text && granted == old(offset) + needed + 1
    {
      ok := Ensure(needed);
      if ok {
        Store(text);
      }
    }

    /** A separator with its terminator. */
    method PutSeparator(text: string) returns (ok: bool)
      requires Valid()
      modifies this, buffer
      ensures Kept() && depth == old(depth)
      ensures ok <==> old(offset) + |text| + 2 <= old(Capacity())
      ensures ok ==> Written() == old(Written()) + text
    {
      ok := Put(text, |text| + 1);
      if ok {
        Terminate();
      }
    }

    /** The closing bracket; the offset stays in front of it. */
    method PutClose(close: string) returns (ok: bool)
      requires Valid() && depth > 0
      modifies this, buffer
      ensures Kept()
      ensures ok <==> old(offset) + |close| + 2 <= old(Capacity())
      ensures ok ==> InPlace(old(Written()) + close) && offset == old(offset) && depth == old(depth) - 1
    {
      ok := Ensure(|close| + 1);
      if ok {
        Leave(close);
        depth := depth - 1;
      }
    }

    /** One element, and a separator when another one follows. */
    method PrintElement(current_element: Item, ghost key: Option<Text>, ghost v: Json, ghost next: Items)
      returns (ok: bool)
      requires Valid() && Holds(current_element, key, v) && (current_element.next == null <==> next == Nil)
      modifies this, buffer
      ensures Kept()
      ensures !ok ==> old(offset) + |Value(v, format, old(depth)) + Comma(format, next)| + 2 > old(Capacity())
      ensures ok ==> Written() == old(Written()) + (Value(v, format, old(depth)) + Comma(format, next))
      ensures ok ==> depth == old(depth)
      decreases v, 2
    {
      hide Holds;
      ok := PrintAndUpdate(current_element, key, v);
      if ok && current_element.next != null {
        ok := PutSeparator(if format then ", " else ",");
      }
    }

    /** The loop over the elements of an array. */
    method PrintElements(item: Item, ghost key: Option<Text>, ghost child: Items) returns (ok: bool)
      requires Valid() && Holds(item, key, Array(child))
      modifies this, buffer
      ensures Kept()
      ensures !ok ==> old(offset) + |Elements(child, format, old(depth))| + 2 > old(Capacity())
      ensures ok ==> Written() == old(Written()) + Elements(child, format, old(depth)) && depth == old(depth)
      decreases child, 0
    {
      hide Holds, HoldAll, Left, Below, Linked, At, Nested, Value;
      ghost var all := Written() + Elements(child, format, depth);
      ghost var i, rest := 0, child;
      StartWalk(item, key, Array(child));
      var current_element := item.child;
      ok := true;
      while current_element != null
        invariant Kept() && depth == old(depth) && ok
        invariant 0 <= i <= |item.children| && current_element == At(item.children, i)
        invariant Left(item, i, rest) && Linked(item.children) && (rest == child || rest < child)
        invariant Written() + Elements(rest, format, depth) == all
        decreases |item.children| - i
      {
        StepWalk(item, i, rest, current_element);
        ElementsNext(Written(), rest, format, depth);
        ok := PrintElement(current_element, rest.key, rest.value, rest.next);
        if !ok {
          return;
        }
        current_element := current_element.next;
        i, rest := i + 1, rest.next;
      }
      EndWalk(item, i, rest, current_element);
    }

    method PutOpenBracket() returns (ok: bool)
      requires Valid()
      modifies this, buffer
      ensures Kept()
      ensures ok <==> old(offset) + 2 <= old(Capacity())
      ensures ok ==> Written() == old(Written()) + "[" && depth == old(depth) + 1
    {
      ok := Put("[", 1);
      if ok {
        depth := depth + 1;
      }
    }

    method PrintArray(item: Item, ghost key: Option<Text>, ghost child: Items) returns (ok: bool)
      requires Valid() && Holds(item, key, Array(child))
      modifies this, buffer
      ensures Kept()
      ensures ok <==> old(offset) + |Value(Array(child), format, old(depth))| + 2 <= old(Capacity())
      ensures ok ==> InPlace(old(Written()) + Value(Array(child), format, old(depth))) && offset >= old(offset)
      ensures ok ==> depth == old(depth)
      decreases child, 1
    {
      hide Value, Elements, Holds;
      ArrayText(Written(), child, format, depth);
      ok := PutOpenBracket();
      if !ok {
        return;
      }
      ok := PrintElements(item, key, child);
      if !ok {
        return;
      }
      ok := PutClose("]");
    }

    method PrintKey(key: Option<Text>) returns (ok: bool)
      requires Valid()
      modifies this, buffer
      ensures Kept() && depth == old(depth)
      ensures ok <==> old(offset) + |Quoted(NameOf(key))| + 2 <= old(Capacity())
      ensures ok ==> Written() == old(Written()) + Quoted(NameOf(key))
    {
      ghost var w, t := Written(), Quoted(NameOf(key));
      ok := PrintStringPtr(key);
      if ok {
        EscapedText(NameOf(key));
        SuffixWithout(w, t, offset);
        UpdateOffset(w + t);
      }
    }

    /** Indentation, name and colon. */
    method PrintMemberStart(key: Option<Text>) returns (ok: bool)
      requires Valid()
      modifies this, buffer
      ensures Kept() && depth == old(depth)
      ensures !ok ==> old(offset) + |MemberStart(key, format, old(depth))| + 1 > old(Capacity())
      ensures ok ==> Written() == old(Written()) + MemberStart(key, format, old(depth))
    {
      ghost var w, i, k, c := Written(), Indent(format, depth), Quoted(NameOf(key)), Colon(format);
      if format {
        ok := Put(Tabs(depth), depth);
        if !ok {
          return;
        }
      }
      assert Written() == w + i;
      ok := PrintKey(key);
      if !ok {
        return;
      }
      ok := Put(if format then ":\t" else ":", if format then 2 else 1);
      ThreeParts(w, i, k, c);
    }

    /** One member, and a separator when another one follows. */
    method PrintMember(current_item: Item, ghost key: Option<Text>, ghost v: Json, ghost next: Items)
      returns (ok: bool)
      requires Valid() && Holds(current_item, key, v) && (current_item.next == null <==> next == Nil)
      modifies this, buffer
      ensures Kept()
      ensures !ok ==> old(offset) + |Member(key, v, next, format, old(depth))| + 2 > old(Capacity())
      ensures ok ==> Written() == old(Written()) + Member(key, v, next, format, old(depth)) && depth == old(depth)
      decreases v, 2
    {
      hide Holds, Value, MemberStart;
      OwnName(current_item, key, v);
      ThreeParts(Written(), MemberStart(key, format, depth), Value(v, format, depth), MemberEnd(format, next));
      ok := PrintMemberStart(current_item.name);
      if !ok {
        return;
      }
      ok := PrintAndUpdate(current_item, key, v);
      if !ok {
        return;
      }
      ok := PutSeparator((if current_item.next != null then "," else "") + (if format then "\n" else ""));
    }

    /** The loop over the members of an object. */
    method PrintMembers(item: Item, ghost key: Option<Text>, ghost child: Items) returns (ok: bool)
      requires Valid() && Holds(item, key, Object(child))
      modifies this, buffer
      ensures Kept()
      ensures !ok ==> old(offset) + |Members(child, format, old(depth))| + 2 > old(Capacity())
      ensures ok ==> Written() == old(Written()) + Members(child, format, old(depth)) && depth == old(depth)
      decreases child, 0
    {
      hide Holds, HoldAll, Left, Below, Linked, At, Nested, Value, MemberStart;
      ghost var all := Written() + Members(child, format, depth);
      ghost var i, rest := 0, child;
      StartWalk(item, key, Object(child));
      var current_item := item.child;
      ok := true;
      while current_item != null
        invariant Kept() && depth == old(depth) && ok
        invariant 0 <= i <= |item.children| && current_item == At(item.children, i)
        invariant Left(item, i, rest) && Linked(item.children) && (rest == child || rest < child)
        invariant Written() + Members(rest, format, depth) == all
        decreases |item.children| - i
      {
        StepWalk(item, i, rest, current_item);
        MembersNext(Written(), rest, format, depth);
        ok := PrintMember(current_item, rest.key, rest.value, rest.next);
        if !ok {
          return;
        }
        current_item := current_item.next;
        i, rest := i + 1, rest.next;
      }
      EndWalk(item, i, rest, current_item);
    }

    method PrintObject(item: Item, ghost key: Option<Text>, ghost child: Items) returns (ok: bool)
      requires Valid() && Holds(item, key, Object(child))
      modifies this, buffer
      ensures Kept()
      ensures ok <==> old(offset) + |Value(Object(child), format, old(depth))| + 2 <= old(Capacity())
      ensures ok ==> InPlace(old(Written()) + Value(Object(child), format, old(depth))) && offset >= old(offset)
      ensures ok ==> depth == old(depth)
      decreases child, 2
    {
      hide Holds;
      ObjectText(Written(), child, format, depth);
      ok := PrintBraces(item, key, child, Written() + Value(Object(child), format, depth));
    }

    method PrintBraces(item: Item, ghost key: Option<Text>, ghost child: Items, ghost all: string)
      returns (ok: bool)
      requires Valid() && Holds(item, key, Object(child))
      requires all == Written() + ("{" + Newline(format)) + Members(child, format, depth + 1) +
        (Indent(format, depth) + "}")
      modifies this, buffer
      ensures Kept()
      ensures ok <==> |all| + 2 <= old(Capacity())
      ensures ok ==> InPlace(all) && offset >= old(offset) && depth == old(depth)
      decreases child, 1
    {
      hide Holds, Members;
      ok := PutOpenBrace();
      if !ok {
        return;
      }
      ok := PrintMembers(item, key, child);
      if !ok {
        return;
      }
      ok := PutCloseBrace();
    }

    method PutOpenBrace() returns (ok: bool)
      requires Valid()
      modifies this, buffer
      ensures Kept()
      ensures ok <==> old(offset) + |"{" + Newline(format)| + 2 <= old(Capacity())
      ensures ok ==> Written() == old(Written()) + ("{" + Newline(format)) && depth == old(depth) + 1
    {
      var length := if format then 2 else 1;
      ok := Put(if format then "{\n" else "{", length + 1);
      if ok {
        depth := depth + 1;
      }
    }

    method PutCloseBrace() returns (ok: bool)
      requires Valid() && depth > 0
      modifies this, buffer
      ensures Kept()
      ensures ok <==> old(offset) + |Indent(format, old(depth) - 1) + "}"| + 2 <= old(Capacity())
      ensures ok ==> InPlace(old(Written()) + (Indent(format, old(depth) - 1) + "}"))
      ensures ok ==> offset == old(offset) && depth == old(depth) - 1
    {
      ok := PutClose((if format then Tabs(depth - 1) else "") + "}");
    }
  }

  /** The text of an item that is no container, from its own fields. */
  lemma TextOfOwn(item: Item, key: Option<Text>, j: Json, format: bool, depth: nat)
    requires OwnFields(item, key, j)
    ensures match item.kind
      case NULL => Value(j, format, depth) == "null" && !j.Number?
      case FALSE => Value(j, format, depth) == "false" && !j.Number?
      case TRUE => Value(j, format, depth) == "true" && !j.Number?
      case NUMBER => Value(j, format, depth) == Decimal.Text(item.valuedouble) && j.Number?
      case STRING => Value(j, format, depth) == Quoted(item.valuestring) && !j.Number?
      case ARRAY => j.Array?
      case OBJECT => j.Object?
  {
  }

  lemma ThreeParts(w: string, a: string, b: string, c: string)
    ensures w + (a + b + c) == w + a + b + c
  {
  }

  lemma SuffixWithout(w: string, t: string, from: nat)
    requires Without(t, '\0') && |w| <= from <= |w + t|
    ensures Without((w + t)[from..], '\0')
  {
  }

  lemma ArrayText(w: string, child: Items, format: bool, depth: nat)
    ensures w + Value(Array(child), format, depth) == w + "[" + Elements(child, format, depth + 1) + "]"
  {
    ThreeParts(w, "[", Elements(child, format, depth + 1), "]");
  }

  lemma ObjectText(w: string, child: Items, format: bool, depth: nat)
    ensures w + Value(Object(child), format, depth) ==
      w + ("{" + Newline(format)) + Members(child, format, depth + 1) + (Indent(format, depth) + "}")
  {
    ThreeParts(w, "{" + Newline(format), Members(child, format, depth + 1), Indent(format, depth) + "}");
    var a, m, i := "{" + Newline(format), Members(child, format, depth + 1), Indent(format, depth);
    assert a + m + i + "}" == a + m + (i + "}");
  }

  lemma ElementsNext(w: string, items: Items, format: bool, depth: nat)
    requires items.Cons?
    ensures w + Elements(items, format, depth) ==
      w + (Value(items.value, format, depth) + Comma(format, items.next)) + Elements(items.next, format, depth)
  {
    Associative(w, Value(items.value, format, depth) + Comma(format, items.next), Elements(items.next, format, depth));
  }

  function Member(key: Option<Text>, v: Json, next: Items, format: bool, depth: nat): string {
    MemberStart(key, format, depth) + Value(v, format, depth) + MemberEnd(format, next)
  }

  lemma MembersNext(w: string, items: Items, format: bool, depth: nat)
    requires items.Cons?
    ensures w + Members(items, format, depth) ==
      w + Member(items.key, items.value, items.next, format, depth) + Members(items.next, format, depth)
  {
    Associative(w, Member(items.key, items.value, items.next, format, depth), Members(items.next, format, depth));
  }

  lemma Associative(a: string, b: string, c: string)
    ensures a + (b + c) == a + b + c
  {
  }

  lemma QuotedEmpty()
    ensures Quoted("") == "\"\""
  {
  }

  lemma QuotedParts(w: string, e: string)
    ensures w + "\"" + e + "\"" == w + ("\"" + e + "\"")
  {
  }

  lemma QuotedLength(s: string, n: nat)
    requires n == |Escaped(s)|
    ensures |Quoted(s)| == n + 2
  {
  }

  lemma EscapedNext(s: string, i: nat)
    requires i < |s|
    ensures Escaped(s[..i + 1]) == Escaped(s[..i]) + Escape(s[i])
    ensures |Escaped(s[..i])| + |Escape(s[i])| <= |Escaped(s)|
  {
    hide Escape;
    EscapedAppend(s[..i], [s[i]]);
    assert s[..i] + [s[i]] == s[..i + 1];
    assert [s[i]][1..] == [];
    EscapedAppend(s[..i + 1], s[i + 1..]);
    assert s[..i + 1] + s[i + 1..] == s;
  }

  lemma {:induction false} NothingEscaped(s: string)
    requires |Escaped(s)| == |s|
    ensures Escaped(s) == s
  {
    if s != [] {
      NothingEscaped(s[1..]);
      assert [s[0]] + s[1..] == s;
    }
  }

  /** The printed array starts with the terminated text. */
  ghost predicate IsTextOf(printed: array<char>, text: string)
    reads printed
  {
    |text| < printed.Length && printed[..|text|] == text && printed[|text|] == '\0'
  }

  /** Prints into a buffer of 256 bytes that is treated as empty, so that the first reservation replaces it. */
  method Print(item: Item, format: bool, ghost key: Option<Text>, ghost v: Json) returns (printed: Option<array<char>>)
    requires Holds(item, key, v)
    ensures printed.Some? <==> |Value(v, format, 0)| + (if v.Number? then 1 else 2) <= 0x7FFF_FFFF
    ensures printed.Some? ==> fresh(printed.value) && IsTextOf(printed.value, Value(v, format, 0))
  {
    hide Holds, Value;
    var space := new char[256];
    var buffer := new PrintBuffer(space, 0, false, format);
    Start(buffer);
    var ok := buffer.PrintTop(item, key, v);
    if !ok {
      return None;
    }
    return Some(buffer.buffer);
  }

  method PrintBuffered(item: Item, prebuffer: int, fmt: bool, ghost key: Option<Text>, ghost v: Json)
    returns (printed: Option<array<char>>)
    requires Holds(item, key, v) && prebuffer <= INT_MAX
    ensures printed.Some? <==> 0 <= prebuffer && |Value(v, fmt, 0)| + (if v.Number? then 1 else 2) <= 0x7FFF_FFFF
    ensures printed.Some? ==> fresh(printed.value) && IsTextOf(printed.value, Value(v, fmt, 0))
  {
    hide Holds, Value;
    if prebuffer < 0 {
      return None;
    }
    var space := new char[prebuffer];
    var p := new PrintBuffer(space, prebuffer, false, fmt);
    Start(p);
    var ok := p.PrintValue(item, key, v);
    if !ok {
      return None;
    }
    return Some(p.buffer);
  }

  /** Never writes behind `len`, and succeeds exactly when the text and its slack fit. */
  method PrintPreallocated(item: Item, buf: array<char>, len: int, fmt: bool, ghost key: Option<Text>, ghost v: Json)
    returns (ok: bool)
    requires Holds(item, key, v)
    requires len <= buf.Length && len <= INT_MAX
    modifies buf
    ensures ok <==> |Value(v, fmt, 0)| + (if v.Number? then 1 else 2) <= len
    ensures ok ==> IsTextOf(buf, Value(v, fmt, 0))
    ensures len < 0 ==> buf[..] == old(buf[..])
    ensures 0 <= len ==> buf[len..] == old(buf[len..])
  {
    hide Holds, Value;
    if len < 0 {
      return false;
    }
    var p := new PrintBuffer(buf, len, true, fmt);
    Start(p);
    label printing:
    ok := p.PrintValue(item, key, v);
    assert p.Beyond() == old@printing(p.Beyond());
  }

  /** Nothing has been written at the start. */
  lemma Start(p: PrintBuffer)
    requires p.offset == 0
    ensures p.Written() == ""
    ensures forall t: string :: p.Written() + t == t
  {
  }
}
