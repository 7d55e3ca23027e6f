/** How a printed tree is laid out: the texts of the children, joined by separators. */
module JsonLayout {
  import opened Bytes
  import opened CText
  import opened JsonText
  import opened JsonTree

  /** The parts one after the other, with `separator` between two of them. */
  function Join(parts: seq<string>, separator: string): string {
    if parts == [] then ""
    else if |parts| == 1 then parts[0]
    else parts[0] + separator + Join(parts[1..], separator)
  }

  /** The texts of the children of an array. */
  function Texts(items: Items, format: bool, depth: nat): seq<string> {
    match items
    case Nil => []
    case Cons(_, v, next) => [Value(v, format, depth)] + Texts(next, format, depth)
  }

  /** A member in a line of its own, indented by one tab for each container around it; or without any space. */
  function MemberText(key: Option<Text>, value: string, format: bool, depth: nat): string {
    var name := if key == None then "\"\"" else "\"" + Escaped(key.value) + "\"";
    if format then seq(depth, _ => '\t') + name + ":\t" + value else name + ":" + value
  }

  function MemberTexts(items: Items, format: bool, depth: nat): seq<string> {
    match items
    case Nil => []
    case Cons(k, v, next) => [MemberText(k, Value(v, format, depth), format, depth)] + MemberTexts(next, format, depth)
  }

  lemma JoinFirst(part: string, parts: seq<string>, separator: string)
    ensures Join([part] + parts, separator) == if parts == [] then part else part + separator + Join(parts, separator)
  {
    assert ([part] + parts)[1..] == parts;
  }

  lemma {:induction false} ElementsJoined(items: Items, format: bool, depth: nat)
    ensures Elements(items, format, depth) == Join(Texts(items, format, depth), if format then ", " else ",")
  {
    match items
    case Nil =>
    case Cons(_, v, next) =>
      hide Join, Value;
      ElementsJoined(next, format, depth);
      JoinFirst(Value(v, format, depth), Texts(next, format, depth), if format then ", " else ",");
  }

  lemma MemberIs(key: Option<Text>, v: Json, format: bool, depth: nat)
    ensures MemberStart(key, format, depth) + Value(v, format, depth) ==
      MemberText(key, Value(v, format, depth), format, depth)
  {
    hide Value, Escaped;
    var name := Quoted(NameOf(key));
    assert NameOf(key) == "" ==> name == "\"\"" by {
      EscapedNothing();
    }
    if !format {
      assert "" + name + ":" == name + ":";
    } else {
      assert Tabs(depth) == seq(depth, _ => '\t');
    }
  }

  lemma EscapedNothing()
    ensures Escaped("") == ""
  {
  }

  lemma {:induction false} MembersJoined(items: Items, format: bool, depth: nat)
    ensures Members(items, format, depth) ==
      Join(MemberTexts(items, format, depth), if format then ",\n" else ",") +
        if format && items != Nil then "\n" else ""
  {
    match items
    case Nil =>
    case Cons(k, v, next) =>
      hide Join, Value, MemberStart, MemberText, MemberTexts, Members, MemberEnd;
      var text, rest := MemberText(k, Value(v, format, depth), format, depth), MemberTexts(next, format, depth);
      MembersJoined(next, format, depth);
      MemberIs(k, v, format, depth);
      MembersSplit(k, v, next, format, depth);
      JoinFirst(text, rest, if format then ",\n" else ",");
      EndsJoined(text, Join(rest, if format then ",\n" else ","), format, next);
  }

  lemma MembersSplit(key: Option<Text>, v: Json, next: Items, format: bool, depth: nat)
    ensures Members(Cons(key, v, next), format, depth) ==
      MemberStart(key, format, depth) + Value(v, format, depth) + MemberEnd(format, next) + Members(next, format, depth)
    ensures MemberTexts(Cons(key, v, next), format, depth) ==
      [MemberText(key, Value(v, format, depth), format, depth)] + MemberTexts(next, format, depth)
    ensures MemberTexts(next, format, depth) == [] <==> next == Nil
    ensures next == Nil ==> Members(next, format, depth) == ""
  {
  }

  lemma EndsJoined(text: string, rest: string, format: bool, next: Items)
    ensures next == Nil ==> text + MemberEnd(format, next) + "" == text + if format then "\n" else ""
    ensures next != Nil ==>
      text + MemberEnd(format, next) + (rest + if format then "\n" else "") ==
      text + (if format then ",\n" else ",") + rest + if format then "\n" else ""
  {
  }

  /** The text of every item. */
  lemma {:induction false} LaidOut(j: Json, format: bool, depth: nat)
    ensures match j
      case Null => Value(j, format, depth) == "null"
      case False => Value(j, format, depth) == "false"
      case True => Value(j, format, depth) == "true"
      case Array(child) =>
        Value(j, format, depth) == "[" + Join(Texts(child, format, depth + 1), if format then ", " else ",") + "]"
      case Object(child) =>
        var members := MemberTexts(child, format, depth + 1);
        Value(j, format, depth) ==
          if !format then "{" + Join(members, ",") + "}"
          else "{\n" + Join(members, ",\n") + (if child == Nil then "" else "\n") + seq(depth, _ => '\t') + "}"
      case _ => true
  {
    match j
    case Array(child) => ElementsJoined(child, format, depth + 1);
    case Object(child) => ObjectLaidOut(child, format, depth);
    case _ =>
  }

  lemma ObjectLaidOut(child: Items, format: bool, depth: nat)
    ensures var members := MemberTexts(child, format, depth + 1);
      Value(Object(child), format, depth) ==
        if !format then "{" + Join(members, ",") + "}"
        else "{\n" + Join(members, ",\n") + (if child == Nil then "" else "\n") + seq(depth, _ => '\t') + "}"
  {
    hide Join, MemberTexts, Members;
    MembersJoined(child, format, depth + 1);
    assert Tabs(depth) == seq(depth, _ => '\t');
    assert "{" + "\n" == "{\n";
    var body := Join(MemberTexts(child, format, depth + 1), if format then ",\n" else ",");
    assert "{" + "" + (body + "") + "" + "}" == "{" + body + "}";
  }
}
