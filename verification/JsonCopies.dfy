/** Printing a tree of linked items and parsing the text gives a second tree of linked items. */
module JsonCopies {
  import opened Bytes
  import opened CText
  import opened JsonComparison
  import opened JsonItems
  import opened JsonList
  import opened JsonParser
  import opened JsonPrinter
  import opened JsonTree
  import JsonCompare
  import JsonRoundTrip
  import JsonSyntax
  import JsonText

  /** What has been printed, read again. There is a copy exactly when the text can be addressed by an `int` and the tree
      is nested no deeper than the parser allows; it consists of new items only and holds the same tree. */
  method PrintAndParse(item: Item, format: bool, requireEnd: bool, ghost key: Option<Text>, ghost v: Json)
    returns (copy: Item?)
    requires Holds(item, key, v) && Proper(v)
    ensures copy != null <==>
      |JsonText.Value(v, format, 0)| + (if v.Number? then 1 else 2) <= 0x7FFF_FFFF && Depth(v) <= 1000
    ensures copy != null ==> fresh(copy) && fresh(copy.below) && Holds(copy, None, v)
  {
    hide Holds, JsonText.Value, JsonSyntax.ParsedDocument, Depth, Proper;
    var printed := Print(item, format, key, v);
    if printed == None {
      return null;
    }
    JsonText.ValueIsText(v, format, 0);
    UpToNulIs(JsonText.Value(v, format, 0), printed.value[..]);
    JsonRoundTrip.ParsedPrint(v, format, requireEnd);
    var o;
    copy, o := ParseWithOpts(UpToNul(printed.value[..]), requireEnd);
  }

  /** The copy compares equal to its source exactly when the namesakes of the tree agree. */
  method CompareWithReprint(item: Item, format: bool, caseSensitive: bool, ghost key: Option<Text>, ghost v: Json)
    returns (same: Option<bool>)
    requires Holds(item, key, v) && Proper(v)
    ensures same.Some? ==> (same.value <==> JsonCompare.Consistent(v, caseSensitive))
    ensures same.Some? <==>
      |JsonText.Value(v, format, 0)| + (if v.Number? then 1 else 2) <= 0x7FFF_FFFF && Depth(v) <= 1000
  {
    hide Holds, JsonText.Value, Depth, Proper, JsonCompare.Consistent, JsonCompare.Compare;
    var copy := PrintAndParse(item, format, true, key, v);
    if copy == null {
      return None;
    }
    var equal := CompareItems(item, copy, caseSensitive, key, v, None, v);
    JsonCompare.CompareWithCopy(v, caseSensitive);
    same := Some(equal);
  }
}
