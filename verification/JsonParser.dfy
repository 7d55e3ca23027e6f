/** The parser: a read position that moves over the text and its terminator. */
module JsonParser {
  import opened Bytes
  import opened CText
  import opened JsonItems
  import opened JsonList
  import opened JsonLiterals
  import opened JsonStrings
  import opened JsonSyntax
  import opened JsonTree
  import Decimal
  import Utf8

  datatype Outcome = Accepted | Refused | Unmodelled

  function OutcomeOf<T>(r: Read<T>): Outcome {
    match r
    case Done(_, _) => Accepted
    case Failed => Refused
    case Beyond => Unmodelled
  }

  /** An item without a value. */
  ghost predicate IsBlank(item: Item)
    reads item`child, item`children, item`below
  {
    item.child == null && item.children == [] && item.below == {}
  }

  class ParseBuffer {
    const content: string
    var offset: nat
    var depth: nat

    /** The content is a text and its terminator; the position is inside. */
    ghost predicate Valid()
      reads this
    {
      && offset < |content|
      && content[|content| - 1] == '\0'
      && Without(content[..|content| - 1], '\0')
    }

    /** The text from the position on, without the terminator. */
    ghost function Rest(): string
      requires offset < |content|
      reads this
    {
      content[offset..|content| - 1]
    }

    /** The outcome of reading, and the position behind what was read. */
    ghost predicate Reached<T>(o: Outcome, r: Read<T>)
      reads this
    {
      && o == OutcomeOf(r)
      && (r.Done? ==> Valid() && Rest() == r.rest)
    }

    constructor (value: Text)
      ensures Valid() && content == value + "\0" && offset == 0 && depth == 0 && Rest() == value
    {
      content := value + "\0";
      offset, depth := 0, 0;
    }

    /** At a character of the text, or at the terminator. */
    lemma Here()
      requires Valid()
      ensures Rest() == "" <==> content[offset] == '\0'
      ensures Rest() != "" ==> Rest()[0] == content[offset] && offset + 1 < |content|
      ensures Rest() != "" ==> content[offset + 1..|content| - 1] == Rest()[1..]
    {
      if Rest() != "" {
        assert content[..|content| - 1][offset] == content[offset];
      }
    }

    /** Runs over the terminator like over white space and then steps back to it. */
    method BufferSkipWhitespace()
      requires Valid()
      modifies this`offset
      ensures Valid() && Rest() == SkipWhite(old(Rest()))
    {
      while offset < |content| && content[offset] as nat <= 32
        invariant offset <= |content|
        invariant offset < |content| ==> SkipWhite(old(Rest())) == SkipWhite(Rest())
        invariant offset == |content| ==> SkipWhite(old(Rest())) == ""
        decreases |content| - offset
      {
        Here();
        offset := offset + 1;
      }
      if offset == |content| {
        offset := offset - 1;
      } else {
        Here();
      }
    }

    /** Collects at most 63 characters that can belong to a number. */
    method CollectNumber() returns (number_c_string: array<char>, i: nat)
      requires Valid()
      ensures fresh(number_c_string) && i <= number_c_string.Length
      ensures number_c_string[..i] == NumberText(Rest(), 63)
    {
      hide NumberText;
      number_c_string := new char[64];
      i := 0;
      ghost var s := Rest();
      NumberTextStart(s);
      while i < 63 && offset + i < |content| && IsNumberChar(content[offset + i])
        invariant i <= 63 && offset + i < |content|
        invariant NumberText(s, 63) == number_c_string[..i] + NumberText(s[i..], 63 - i)
      {
        assert offset + i < |content| - 1;
        NumberTextNext(s, i);
        number_c_string[i] := content[offset + i];
        i := i + 1;
      }
      NumberTextEnd(s, i);
    }

    method ParseNumber(item: Item) returns (o: Outcome)
      requires Valid()
      modifies this`offset, item`kind, item`valuedouble
      ensures Reached(o, ParsedNumber(old(Rest())))
      ensures o.Accepted? ==>
        item.kind == NUMBER && ParsedNumber(old(Rest())).value == Number(item.valuedouble)
    {
      hide StrToD, NumberText;
      var number_c_string, i := CollectNumber();
      match StrToD(number_c_string[..i])
      case NotANumber => o := Refused;
      case Other => o := Unmodelled;
      case Integer(n, length) =>
        item.kind, item.valuedouble := NUMBER, n;
        offset := offset + length;
        o := Accepted;
    }

    /** The first scan: where the literal ends, and how many backslashes are skipped on the way. */
    method FindClosingQuote() returns (found: bool, input_end: nat, skipped_bytes: nat)
      requires Valid() && offset + 1 < |content|
      ensures found <==> ClosingQuote(content[offset + 1..|content| - 1]).Some?
      ensures found ==> input_end == offset + 1 + ClosingQuote(content[offset + 1..|content| - 1]).value
      ensures found ==> offset < input_end < |content| - 1
      ensures found ==> skipped_bytes == Skipped(content[offset + 1..input_end], false)
    {
      hide ClosingQuote, Skipped, IsPaired;
      ghost var from, last := offset + 1, |content| - 1;
      input_end, skipped_bytes := offset + 1, 0;
      ScanStart(content[from..last], content[from..input_end]);
      while input_end < |content| && content[input_end] != '\"'
        invariant from <= input_end <= |content|
        invariant input_end == |content| ==> ClosingQuote(content[from..last]) == None
        invariant input_end < |content| ==>
          ClosingQuote(content[from..last]) == Shifted(ClosingQuote(content[input_end..last]), input_end - from)
        invariant input_end < |content| ==> skipped_bytes == Skipped(content[from..input_end], false)
        invariant input_end < |content| ==> IsPaired(content[from..input_end], false)
        decreases |content| - input_end
      {
        if content[input_end] == '\\' {
          // The check for a backslash at the end of the buffer never fires: the terminator is behind it.
          assert input_end + 1 < |content|;
          ScanPair(content, from, input_end);
          skipped_bytes := skipped_bytes + 1;
          input_end := input_end + 1;
        } else {
          ScanOne(content, from, input_end);
        }
        input_end := input_end + 1;
      }
      if input_end >= |content| || content[input_end] != '\"' {
        return false, 0, 0;
      }
      ScanEnd(content, input_end);
      found := true;
    }

    /** The output for the unit at `input_pointer`, written at `at`; `step` is the number of characters read, and
        zero when the unit is not valid. The character behind the contents is the closing quotation mark. */
    method PutUnit(input_pointer: nat, input_end: nat, output: array<char>, at: nat) returns (step: nat, next: nat)
      requires input_pointer < input_end < |content| && content[input_end] == '\"'
      requires var u := Unit(content[input_pointer..input_end]); u.Some? ==> at + |u.value.0| <= output.Length
      modifies output
      ensures var u := Unit(content[input_pointer..input_end]);
        && (u.None? ==> step == 0)
        && (u.Some? ==> next == at + |u.value.0| && output[..next] == old(output[..at]) + u.value.0)
        && (u.Some? ==> step == u.value.1 || (step == 2 && input_pointer + 1 == input_end && u.value.1 == 1))
    {
      hide Utf16Literal, Utf8.Encoded;
      ghost var b := content[input_pointer..input_end];
      if content[input_pointer] != '\\' {
        output[at] := content[input_pointer];
        return 1, at + 1;
      }
      var e := content[input_pointer + 1];
      if e == 'u' {
        var length;
        step, length := Utf16LiteralToUtf8(content[input_pointer..input_end], output, at);
        next := at + length;
      } else {
        var c := SimpleEscape(e);
        if c == None {
          return 0, at;
        }
        output[at] := c.value;
        step, next := 2, at + 1;
      }
    }

    /** The second scan: the contents of the literal, in a buffer sized by the first scan. */
    method Contents(input_end: nat, skipped_bytes: nat) returns (ok: bool, output: array<char>, n: nat)
      requires offset < input_end < |content| && content[input_end] == '\"'
      requires skipped_bytes == Skipped(content[offset + 1..input_end], false)
      requires IsPaired(content[offset + 1..input_end], false)
      ensures fresh(output) && output.Length == input_end - offset - skipped_bytes + 1
      ensures ok <==> Unescaped(content[offset + 1..input_end]).Some?
      ensures ok ==> n < output.Length && output[n] == '\0'
      ensures ok ==> Unescaped(content[offset + 1..input_end]) == Some(output[..n])
    {
      hide Unescaped, Unit, Skipped, IsPaired;
      ghost var start := offset + 1;
      ghost var b := content[start..input_end];
      output := new char[input_end - offset - skipped_bytes + 1];
      var input_pointer: nat, output_pointer: nat := offset + 1, 0;
      ghost var i, inPair := start, false;
      assert output[..0] == "";
      BeforeNothing(Unescaped(b));
      while input_pointer < input_end
        invariant start <= i <= input_end && i <= input_pointer && (input_pointer < input_end ==> i == input_pointer)
        invariant input_pointer >= input_end ==> i == input_end
        invariant IsPaired(content[i..input_end], inPair)
        invariant output_pointer + skipped_bytes <= i - start + Skipped(content[i..input_end], inPair)
        invariant output_pointer <= output.Length
        invariant Unescaped(b) == Before(output[..output_pointer], Unescaped(content[i..input_end]))
        decreases input_end - input_pointer
      {
        ghost var rest, done := content[i..input_end], output[..output_pointer];
        UnescapedStep(rest);
        if Unit(rest).Some? {
          UnitFits(rest, inPair);
        }
        var step, next := PutUnit(input_pointer, input_end, output, output_pointer);
        if step == 0 {
          ok, n := false, 0;
          return;
        }
        ghost var m := Unit(rest).value.1;
        assert content[i + m..input_end] == rest[m..];
        BeforeTwice(done, Unit(rest).value.0, Unescaped(rest[m..]));
        inPair := After(rest, inPair, m);
        i := i + m;
        input_pointer, output_pointer := input_pointer + step, next;
      }
      NothingLeft(content[i..input_end], inPair);
      output[output_pointer] := '\0';
      ok, n := true, output_pointer;
    }

    method ParseString(item: Item) returns (o: Outcome)
      requires Valid()
      modifies this`offset, item`kind, item`valuestring
      ensures Reached(o, ParsedString(old(Rest())))
      ensures o.Accepted? ==> item.kind == STRING && item.valuestring == ParsedString(old(Rest())).value
    {
      hide ClosingQuote, Unescaped, Skipped, IsPaired, UpToNul;
      Here();
      if content[offset] != '\"' {
        return Refused;
      }
      var found, input_end, skipped_bytes := FindClosingQuote();
      if !found {
        return Refused;
      }
      ghost var t := Rest()[1..];
      ClosedIsPaired(t);
      assert t[..ClosingQuote(t).value] == content[offset + 1..input_end] == Rest()[1..1 + ClosingQuote(t).value];
      var ok, output, n := Contents(input_end, skipped_bytes);
      if !ok {
        return Refused;
      }
      item.kind, item.valuestring := STRING, UpToNul(output[..n]);
      assert content[input_end + 1..|content| - 1] == Rest()[ClosingQuote(t).value + 2..];
      offset := input_end;
      offset := offset + 1;
      o := Accepted;
    }

    /** Compares the text at the position with a literal name. */
    method Matches(word: string) returns (same: bool)
      requires Valid() && word != "" && Without(word, '\0')
      ensures same <==> word <= Rest()
    {
      same := offset + |word| <= |content| && content[offset..offset + |word|] == word;
    }

    /** Reads a value into an item, which then holds the tree of the specification. */
    method ParseValue(item: Item) returns (o: Outcome)
      requires Valid() && IsBlank(item)
      modifies this`offset, this`depth, item`kind, item`valuestring, item`valuedouble, item`child, item`children,
               item`below
      ensures Reached(o, ParsedValue(old(Rest()), old(depth)))
      ensures o.Accepted? ==>
        && Holds(item, item.name, ParsedValue(old(Rest()), old(depth)).value)
        && fresh(item.below) && depth == old(depth)
      decreases |content| - offset, 4
    {
      hide ParsedString, ParsedNumber, ParsedArray, ParsedObject, SkipWhite, Holds;
      Here();
      var isNull := Matches("null");
      if isNull {
        item.kind := NULL;
        offset := offset + 4;
        BlankHolds(item, Null);
        return Accepted;
      }
      var isFalse := Matches("false");
      if isFalse {
        item.kind := FALSE;
        offset := offset + 5;
        BlankHolds(item, False);
        return Accepted;
      }
      var isTrue := Matches("true");
      if isTrue {
        item.kind := TRUE;
        offset := offset + 4;
        BlankHolds(item, True);
        return Accepted;
      }
      o := ParseOther(item);
    }

    /** Strings, numbers and containers, by their first character. */
    method ParseOther(item: Item) returns (o: Outcome)
      requires Valid() && !("null" <= Rest()) && !("false" <= Rest()) && !("true" <= Rest()) && IsBlank(item)
      modifies this`offset, this`depth, item`kind, item`valuestring, item`valuedouble, item`child, item`children,
               item`below
      ensures Reached(o, ParsedValue(old(Rest()), old(depth)))
      ensures o.Accepted? ==>
        && Holds(item, item.name, ParsedValue(old(Rest()), old(depth)).value)
        && fresh(item.below) && depth == old(depth)
      decreases |content| - offset, 3
    {
      hide ParsedString, ParsedNumber, ParsedArray, ParsedObject, SkipWhite, Holds;
      Here();
      if content[offset] == '\"' {
        o := ParseString(item);
        if o.Accepted? {
          BlankHolds(item, Str(item.valuestring));
        }
      } else if content[offset] == '-' || Decimal.IsDigit(content[offset]) {
        o := ParseNumber(item);
        if o.Accepted? {
          BlankHolds(item, Number(item.valuedouble));
        }
      } else if content[offset] == '[' {
        o := ParseArray(item);
      } else if content[offset] == '{' {
        o := ParseObject(item);
      } else {
        o := Refused;
      }
    }

    /** One value behind the character at the position, with the white space around it. */
    method NextElement(item: Item) returns (o: Outcome)
      requires Valid() && offset + 1 < |content| && IsBlank(item)
      modifies this`offset, this`depth, item`kind, item`valuestring, item`valuedouble, item`child, item`children,
               item`below
      ensures o == OutcomeOf(ParsedValue(SkipWhite(old(content[offset + 1..|content| - 1])), old(depth)))
      ensures o.Accepted? ==> depth == old(depth) && Valid() && offset > old(offset)
      ensures o.Accepted? ==>
        var r := ParsedValue(SkipWhite(old(content[offset + 1..|content| - 1])), old(depth));
        Rest() == SkipWhite(r.rest) && Holds(item, item.name, r.value) && fresh(item.below)
      decreases |content| - offset, 0
    {
      hide ParsedValue, SkipWhite, Holds;
      offset := offset + 1;
      BufferSkipWhitespace();
      o := ParseValue(item);
      if o.Accepted? {
        BufferSkipWhitespace();
      }
    }

    /** One element of an array, which grows the row of items read so far. */
    method NextInRow(item: Item, ghost row: seq<Item>, ghost under: set<Item>, ghost items: Items)
      returns (o: Outcome)
      requires Valid() && offset + 1 < |content| && IsBlank(item) && Awaiting(row, item, under, items)
      modifies this`offset, this`depth, item`kind, item`valuestring, item`valuedouble, item`child, item`children,
               item`below
      ensures o == OutcomeOf(ParsedValue(SkipWhite(old(content[offset + 1..|content| - 1])), old(depth)))
      ensures o.Accepted? ==> depth == old(depth) && Valid() && offset > old(offset)
      ensures o.Accepted? ==>
        var r := ParsedValue(SkipWhite(old(content[offset + 1..|content| - 1])), old(depth));
        && Rest() == SkipWhite(r.rest) && fresh(item.below)
        && Row(row + [item], under + {item} + item.below, Append(items, Cons(item.name, r.value, Nil)))
        && Below(row + [item]) <= under + {item} + item.below
      decreases |content| - offset, 1
    {
      hide ParsedValue, SkipWhite, Holds, HoldAll, Linked, Below, Row, Append;
      AwaitedApart(row, item, under, items);
      o := NextElement(item);
      if o.Accepted? {
        RowGrows(row, item, under, items, item.name,
          ParsedValue(SkipWhite(old(content[offset + 1..|content| - 1])), old(depth)).value);
      }
    }

    /** Moves behind the opening bracket and the white space there. */
    method EnterContainer()
      requires Valid() && Rest() != ""
      modifies this`offset, this`depth
      ensures Valid() && Rest() == SkipWhite(old(Rest()[1..]))
      ensures depth == old(depth) + 1 && offset > old(offset)
    {
      hide SkipWhite;
      depth := depth + 1;
      Here();
      offset := offset + 1;
      BufferSkipWhitespace();
    }

    method ParseArray(item: Item) returns (o: Outcome)
      requires Valid() && StartsWith(Rest(), '[') && IsBlank(item)
      modifies this`offset, this`depth, item`kind, item`valuestring, item`valuedouble, item`child, item`children,
               item`below
      ensures Reached(o, AsArray(ParsedArray(old(Rest()), old(depth))))
      ensures o.Accepted? ==>
        && Holds(item, item.name, Array(ParsedArray(old(Rest()), old(depth)).value))
        && fresh(item.below) && depth == old(depth)
      decreases |content| - offset, 3, 0
    {
      hide ParsedValue, ParsedElements, SkipWhite, ParsedObject, ParsedMembers, ParsedString, ParsedNumber, Holds,
           HoldAll, Row;
      if depth >= NESTING_LIMIT {
        return Refused;
      }
      EnterContainer();
      Here();
      ghost var inner := old(Rest()[1..]);
      var head: Item? := null;
      ghost var row: seq<Item>, under: set<Item>, items := [], {}, Nil;
      EmptyRow();
      assert Below(row) <= under;
      if content[offset] != ']' {
        // step back to the character in front of the first element
        offset := offset - 1;
        assert content[offset + 1..|content| - 1] == SkipWhite(inner);
        SkipWhiteTwice(inner, depth);
        o, head, row, under := ParseElements();
        if !o.Accepted? {
          return;
        }
        items := ParsedElements(inner, depth).value;
      } else {
        offset := offset + 1;
      }
      depth := depth - 1;
      Attach(item, ARRAY, head, row, under, items);
      o := Accepted;
    }

    /** The loop over comma separated elements behind the character at the position. */
    method ParseElements() returns (o: Outcome, head: Item?, ghost row: seq<Item>, ghost under: set<Item>)
      requires Valid() && offset + 1 < |content|
      modifies this`offset, this`depth
      ensures Reached(o, ParsedElements(old(content[offset + 1..|content| - 1]), old(depth)))
      ensures o.Accepted? ==>
        && Row(row, under, ParsedElements(old(content[offset + 1..|content| - 1]), old(depth)).value)
        && head == At(row, 0) && Below(row) <= under && fresh(under) && depth == old(depth)
      decreases |content| - offset, 2
    {
      hide ParsedValue, ParsedElements, SkipWhite, Prefixed, Append, Row, Awaiting, Holds, HoldAll, Below, Linked;
      var current_item: Item?, more := null, true;
      head, row, under := null, [], {};
      ghost var items, last, r := Nil, |content| - 1, ParsedElements(content[offset + 1..|content| - 1], depth);
      PrefixedNothing(r);
      EmptyRow();
      while more
        invariant Valid() && offset >= old(offset) && depth == old(depth)
        invariant Row(row, under, items) && Below(row) <= under && fresh(under) && fresh(row)
        invariant head == At(row, 0) && current_item == At(row, |row| - 1)
        invariant more ==>
          offset + 1 < |content| && r == Prefixed(items, ParsedElements(content[offset + 1..last], depth))
        invariant !more ==> r == if StartsWith(Rest(), ']') then Done(items, Rest()[1..]) else Failed
        decreases more, |content| - offset
      {
        ghost var s := content[offset + 1..last];
        ElementRefused(items, s, depth);
        var new_item := new Item();
        head := LinkItem(head, current_item, new_item, row, under, items);
        current_item := new_item;
        o := NextInRow(new_item, row, under, items);
        if !o.Accepted? {
          return;
        }
        Here();
        ElementRead(items, s, depth, Rest());
        items := Append(items, Cons(None, ParsedValue(SkipWhite(s), depth).value, Nil));
        row, under := row + [new_item], under + {new_item} + new_item.below;
        more := content[offset] == ',';
      }
      Here();
      if content[offset] != ']' {
        o := Refused;
        return;
      }
      offset := offset + 1;
      o := Accepted;
    }

    /** The name of a member behind the character at the position, up to its colon; it is read as the value of the item
        and then becomes its name. */
    method NextName(item: Item) returns (o: Outcome)
      requires Valid() && offset + 1 < |content|
      modifies this`offset, item`kind, item`valuestring, item`name
      ensures o == OutcomeOf(ParsedName(old(content[offset + 1..|content| - 1])))
      ensures o.Accepted? ==> Valid() && old(offset) < offset && offset + 1 < |content|
      ensures o.Accepted? ==>
        var r := ParsedName(old(content[offset + 1..|content| - 1]));
        content[offset + 1..|content| - 1] == r.rest && item.name == Some(r.value)
    {
      hide ParsedString, SkipWhite;
      offset := offset + 1;
      BufferSkipWhitespace();
      o := ParseString(item);
      if o.Accepted? {
        BufferSkipWhitespace();
        item.name, item.valuestring := Some(item.valuestring), "";
        Here();
        if content[offset] != ':' {
          return Refused;
        }
      }
    }

    /** One member of an object, which grows the row of items read so far. */
    method NextMember(item: Item, ghost row: seq<Item>, ghost under: set<Item>, ghost items: Items)
      returns (o: Outcome)
      requires Valid() && offset + 1 < |content| && IsBlank(item) && Awaiting(row, item, under, items)
      modifies this`offset, this`depth, item`kind, item`valuestring, item`valuedouble, item`child, item`children,
               item`below, item`name
      ensures var n := ParsedName(old(content[offset + 1..|content| - 1]));
        o == if n.Done? then OutcomeOf(ParsedValue(SkipWhite(n.rest), old(depth))) else OutcomeOf(n)
      ensures o.Accepted? ==> depth == old(depth) && Valid() && offset > old(offset)
      ensures o.Accepted? ==>
        var n := ParsedName(old(content[offset + 1..|content| - 1]));
        var r := ParsedValue(SkipWhite(n.rest), old(depth));
        && Rest() == SkipWhite(r.rest) && fresh(item.below)
        && Row(row + [item], under + {item} + item.below, Append(items, Cons(Some(n.value), r.value, Nil)))
        && Below(row + [item]) <= under + {item} + item.below
      decreases |content| - offset, 1
    {
      hide ParsedValue, ParsedName, SkipWhite, Holds, HoldAll, Linked, Below, Row, Append, InUnder;
      AwaitedApart(row, item, under, items);
      o := NextName(item);
      if o.Accepted? {
        o := NextInRow(item, row, under, items);
      }
    }

    method ParseObject(item: Item) returns (o: Outcome)
      requires Valid() && StartsWith(Rest(), '{') && IsBlank(item)
      modifies this`offset, this`depth, item`kind, item`valuestring, item`valuedouble, item`child, item`children,
               item`below
      ensures Reached(o, AsObject(ParsedObject(old(Rest()), old(depth))))
      ensures o.Accepted? ==>
        && Holds(item, item.name, Object(ParsedObject(old(Rest()), old(depth)).value))
        && fresh(item.below) && depth == old(depth)
      decreases |content| - offset, 3, 0
    {
      hide ParsedValue, ParsedElements, SkipWhite, ParsedArray, ParsedMembers, ParsedString, ParsedNumber, Holds,
           HoldAll, Row;
      if depth >= NESTING_LIMIT {
        return Refused;
      }
      EnterContainer();
      Here();
      ghost var inner := old(Rest()[1..]);
      var head: Item? := null;
      ghost var row: seq<Item>, under: set<Item>, items := [], {}, Nil;
      EmptyRow();
      assert Below(row) <= under;
      if content[offset] != '}' {
        // step back to the character in front of the first member
        offset := offset - 1;
        assert content[offset + 1..|content| - 1] == SkipWhite(inner);
        SkipWhiteTwice(inner, depth);
        o, head, row, under := ParseMembers();
        if !o.Accepted? {
          return;
        }
        items := ParsedMembers(inner, depth).value;
      } else {
        offset := offset + 1;
      }
      depth := depth - 1;
      Attach(item, OBJECT, head, row, under, items);
      o := Accepted;
    }

    /** The loop over comma separated members behind the character at the position. */
    method ParseMembers() returns (o: Outcome, head: Item?, ghost row: seq<Item>, ghost under: set<Item>)
      requires Valid() && offset + 1 < |content|
      modifies this`offset, this`depth
      ensures Reached(o, ParsedMembers(old(content[offset + 1..|content| - 1]), old(depth)))
      ensures o.Accepted? ==>
        && Row(row, under, ParsedMembers(old(content[offset + 1..|content| - 1]), old(depth)).value)
        && head == At(row, 0) && Below(row) <= under && fresh(under) && depth == old(depth)
      decreases |content| - offset, 2
    {
      hide ParsedValue, ParsedMembers, ParsedName, SkipWhite, Prefixed, Append, Row, Awaiting, Holds, HoldAll, Below,
           Linked;
      var current_item: Item?, more := null, true;
      head, row, under := null, [], {};
      ghost var items, last, r := Nil, |content| - 1, ParsedMembers(content[offset + 1..|content| - 1], depth);
      PrefixedNothing(r);
      EmptyRow();
      while more
        invariant Valid() && offset >= old(offset) && depth == old(depth)
        invariant Row(row, under, items) && Below(row) <= under && fresh(under) && fresh(row)
        invariant head == At(row, 0) && current_item == At(row, |row| - 1)
        invariant more ==>
          offset + 1 < |content| && r == Prefixed(items, ParsedMembers(content[offset + 1..last], depth))
        invariant !more ==> r == if StartsWith(Rest(), '}') then Done(items, Rest()[1..]) else Failed
        decreases more, |content| - offset
      {
        ghost var s := content[offset + 1..last];
        MemberRefused(items, s, depth);
        var new_item := new Item();
        head := LinkItem(head, current_item, new_item, row, under, items);
        current_item := new_item;
        o := NextMember(new_item, row, under, items);
        if !o.Accepted? {
          return;
        }
        Here();
        MemberRead(items, s, depth, Rest());
        ghost var n := ParsedName(s);
        items := Append(items, Cons(Some(n.value), ParsedValue(SkipWhite(n.rest), depth).value, Nil));
        row, under := row + [new_item], under + {new_item} + new_item.below;
        more := content[offset] == ',';
      }
      Here();
      if content[offset] != '}' {
        o := Refused;
        return;
      }
      offset := offset + 1;
      o := Accepted;
    }
  }

  /** A value that is no container needs nothing but its own fields. */
  lemma BlankHolds(item: Item, v: Json)
    requires IsBlank(item) && OwnFields(item, item.name, v) && !v.Array? && !v.Object?
    ensures Holds(item, item.name, v)
  {
  }

  /** Links a new item behind the current one, or starts the row with it. */
  method LinkItem(head: Item?, current_item: Item?, new_item: Item, ghost row: seq<Item>, ghost under: set<Item>,
                  ghost items: Items) returns (first: Item)
    requires Row(row, under, items) && head == At(row, 0) && current_item == At(row, |row| - 1)
    requires IsFree(new_item) && new_item !in under
    modifies row`next, new_item`prev
    ensures Awaiting(row, new_item, under, items) && first == At(row + [new_item], 0)
  {
    hide HoldAll, Below, Distinct;
    MembersUnder(row, under);
    if current_item == null {
      first := new_item;
    } else {
      Neighbours(row, |row| - 1);
      first := head;
      current_item.next := new_item;
      new_item.prev := current_item;
    }
    LinkedAppend(row, new_item);
  }

  /** Nothing the row consists of is changed while the awaited item gets its value. */
  lemma AwaitedApart(row: seq<Item>, item: Item, under: set<Item>, items: Items)
    requires Awaiting(row, item, under, items)
    ensures item !in row && item !in Below(row) && item !in under && Below(row) <= under
  {
    hide HoldAll, Below, Linked;
    MembersUnder(row, under);
  }

  /** The row becomes the children of the item. */
  method Attach(item: Item, kind: Kind, head: Item?, ghost row: seq<Item>, ghost under: set<Item>, ghost items: Items)
    requires Row(row, under, items) && head == At(row, 0) && item !in under && (kind == ARRAY || kind == OBJECT)
    modifies item`kind, item`child, item`children, item`below
    ensures Holds(item, item.name, if kind == ARRAY then Array(items) else Object(items)) && item.below == under
  {
    hide HoldAll, Below, Linked;
    MembersUnder(row, under);
    item.kind, item.child := kind, head;
    item.children, item.below := row, under;
  }

  lemma BeforeNothing(r: Option<string>)
    ensures Before("", r) == r
  {
    if r.Some? {
      assert "" + r.value == r.value;
    }
  }

  lemma BeforeTwice(a: string, o: string, r: Option<string>)
    ensures Before(a, Before(o, r)) == Before(a + o, r)
  {
    if r.Some? {
      assert a + (o + r.value) == a + o + r.value;
    }
  }

  lemma UnescapedStep(b: string)
    requires b != ""
    ensures Unescaped(b) == if Unit(b).None? then None else Before(Unit(b).value.0, Unescaped(b[Unit(b).value.1..]))
  {
  }

  lemma NothingLeft(b: string, inPair: bool)
    requires b == ""
    ensures Unescaped(b) == Some("") && Skipped(b, inPair) == 0
    ensures forall a: string :: Before(a, Unescaped(b)) == Some(a)
  {
    forall a: string
      ensures Before(a, Unescaped(b)) == Some(a)
    {
      assert a + "" == a;
    }
  }

  /** The items read so far, in front of the ones still to come. */
  function Prefixed(head: Items, r: Read<Items>): Read<Items> {
    match r
    case Done(items, rest) => Done(Append(head, items), rest)
    case Failed => Failed
    case Beyond => Beyond
  }

  lemma PrefixedNothing(r: Read<Items>)
    ensures Prefixed(Nil, r) == r
  {
  }

  lemma PrefixedCons(head: Items, key: Option<Text>, v: Json, r: Read<Items>)
    ensures Prefixed(head, ConsRead(key, v, r)) == Prefixed(Append(head, Cons(key, v, Nil)), r)
  {
    if r.Done? {
      AppendAssociative(head, Cons(key, v, Nil), r.value);
    }
  }

  lemma SkipWhiteTwice(s: string, depth: nat)
    ensures ParsedElements(SkipWhite(s), depth) == ParsedElements(s, depth)
    ensures ParsedMembers(SkipWhite(s), depth) == ParsedMembers(s, depth)
  {
    SkipWhiteOnce(s);
  }

  lemma SkipWhiteOnce(s: string)
    ensures SkipWhite(SkipWhite(s)) == SkipWhite(s)
  {
  }

  lemma ElementRefused(head: Items, s: string, depth: nat)
    ensures var r := ParsedValue(SkipWhite(s), depth);
      && (r.Failed? ==> Prefixed(head, ParsedElements(s, depth)) == Failed)
      && (r.Beyond? ==> Prefixed(head, ParsedElements(s, depth)) == Beyond)
  {
  }

  lemma ElementRead(head: Items, s: string, depth: nat, u: string)
    requires var r := ParsedValue(SkipWhite(s), depth); r.Done? && u == SkipWhite(r.rest)
    ensures var more := Append(head, Cons(None, ParsedValue(SkipWhite(s), depth).value, Nil));
      Prefixed(head, ParsedElements(s, depth)) ==
        if StartsWith(u, ',') then Prefixed(more, ParsedElements(u[1..], depth))
        else if StartsWith(u, ']') then Done(more, u[1..])
        else Failed
  {
    if StartsWith(u, ',') {
      PrefixedCons(head, None, ParsedValue(SkipWhite(s), depth).value, ParsedElements(u[1..], depth));
    }
  }

  lemma MemberRefused(head: Items, s: string, depth: nat)
    ensures var n := ParsedName(s);
      && (n.Failed? ==> Prefixed(head, ParsedMembers(s, depth)) == Failed)
      && (n.Beyond? ==> Prefixed(head, ParsedMembers(s, depth)) == Beyond)
    ensures var n := ParsedName(s); n.Done? ==>
      var r := ParsedValue(SkipWhite(n.rest), depth);
      && (r.Failed? ==> Prefixed(head, ParsedMembers(s, depth)) == Failed)
      && (r.Beyond? ==> Prefixed(head, ParsedMembers(s, depth)) == Beyond)
  {
  }

  lemma MemberRead(head: Items, s: string, depth: nat, u: string)
    requires ParsedName(s).Done?
    requires var r := ParsedValue(SkipWhite(ParsedName(s).rest), depth); r.Done? && u == SkipWhite(r.rest)
    ensures var v := ParsedValue(SkipWhite(ParsedName(s).rest), depth).value;
      var more := Append(head, Cons(Some(ParsedName(s).value), v, Nil));
      Prefixed(head, ParsedMembers(s, depth)) ==
        if StartsWith(u, ',') then Prefixed(more, ParsedMembers(u[1..], depth))
        else if StartsWith(u, '}') then Done(more, u[1..])
        else Failed
  {
    hide ParsedName;
    if StartsWith(u, ',') {
      PrefixedCons(head, Some(ParsedName(s).value), ParsedValue(SkipWhite(ParsedName(s).rest), depth).value,
        ParsedMembers(u[1..], depth));
    }
  }

  lemma ScanStart(t: string, a: string)
    requires a == ""
    ensures ClosingQuote(t) == Shifted(ClosingQuote(t), 0) && Skipped(a, false) == 0 && IsPaired(a, false)
  {
  }

  /** One character that is no quotation mark. */
  lemma ScanOne(content: string, from: nat, i: nat)
    requires from <= i < |content| && content[|content| - 1] == '\0' && content[i] != '\"' && content[i] != '\\'
    requires IsPaired(content[from..i], false)
    ensures var last := |content| - 1;
      && (i == last ==> ClosingQuote(content[i..last]) == None)
      && (i < last ==> ClosingQuote(content[i..last]) == Shifted(ClosingQuote(content[i + 1..last]), 1))
      && (i < last ==> IsPaired(content[from..i + 1], false))
      && (i < last ==> Skipped(content[from..i + 1], false) == Skipped(content[from..i], false))
  {
    var last := |content| - 1;
    if i < last {
      assert content[i..last][1..] == content[i + 1..last];
      assert content[from..i + 1] == content[from..i] + [content[i]];
      OneMoreScanned(content[from..i], content[i]);
    }
  }

  /** A backslash and the character it hides. */
  lemma ScanPair(content: string, from: nat, i: nat)
    requires from <= i && i + 1 < |content| && content[i] == '\\'
    requires IsPaired(content[from..i], false)
    ensures var last := |content| - 1;
      && (i + 1 == last ==> ClosingQuote(content[i..last]) == None)
      && (i + 1 < last ==> ClosingQuote(content[i..last]) == Shifted(ClosingQuote(content[i + 2..last]), 2))
      && (i + 1 < last ==> IsPaired(content[from..i + 2], false))
      && (i + 1 < last ==> Skipped(content[from..i + 2], false) == Skipped(content[from..i], false) + 1)
  {
    var last := |content| - 1;
    if i + 1 < last {
      assert content[i..last][2..] == content[i + 2..last];
      assert content[from..i + 2] == content[from..i] + ['\\', content[i + 1]];
      OneMorePair(content[from..i], content[i + 1]);
    }
  }

  lemma ScanEnd(content: string, i: nat)
    requires i < |content| && content[i] == '\"' && content[|content| - 1] == '\0'
    ensures i < |content| - 1 && ClosingQuote(content[i..|content| - 1]) == Some(0)
  {
  }

  lemma NumberTextStart(s: string)
    ensures NumberText(s, 63) == [] + NumberText(s[0..], 63)
  {
    assert s[0..] == s;
  }

  lemma NumberTextEnd(s: string, i: nat)
    requires i == 63 || i == |s| || (i < |s| && !IsNumberChar(s[i]))
    requires i <= |s| && i <= 63
    ensures NumberText(s[i..], 63 - i) == ""
  {
  }

  lemma NumberTextNext(s: string, i: nat)
    requires i < 63 && i < |s| && IsNumberChar(s[i])
    ensures NumberText(s[i..], 63 - i) == [s[i]] + NumberText(s[i + 1..], 63 - (i + 1))
  {
    assert s[i..][1..] == s[i + 1..];
  }

  predicate HasBom(value: string) {
    |value| >= 4 && value[..3] == [0xEF as char, 0xBB as char, 0xBF as char]
  }

  /** Parses a whole document; with `require_null_terminated`, nothing but white space may follow the value. */
  method ParseWithOpts(value: Text, require_null_terminated: bool) returns (item: Item?, o: Outcome)
    ensures o == OutcomeOf(ParsedDocument(value, require_null_terminated))
    ensures item != null <==> o.Accepted?
    ensures item != null ==>
      && fresh(item) && fresh(item.below) && item.name == None
      && Holds(item, None, ParsedDocument(value, require_null_terminated).value)
  {
    hide ParsedValue, SkipWhite, Holds;
    var buffer := new ParseBuffer(value);
    if HasBom(value) {
      buffer.offset := 3;
    }
    buffer.BufferSkipWhitespace();
    item := new Item();
    o := buffer.ParseValue(item);
    if o.Accepted? && require_null_terminated {
      buffer.BufferSkipWhitespace();
      buffer.Here();
      if buffer.content[buffer.offset] != '\0' {
        o := Refused;
      }
    }
    if !o.Accepted? {
      item := null;
    }
  }
}
