/** Objects built member by member. */
module JsonObjects {
  import opened Bytes
  import opened CText
  import opened JsonItems
  import opened JsonList
  import opened JsonTree

  /** A new item with nothing below it. */
  ghost predicate IsNew(item: Item)
    reads item`next, item`prev, item`child, item`children, item`below
  {
    IsFree(item) && item.child == null && item.children == [] && item.below == {}
  }

  lemma NewHolds(item: Item, v: Json)
    requires IsNew(item) && OwnFields(item, None, v) && (v.Array? || v.Object? ==> v.child == Nil)
    ensures Holds(item, None, v)
  {
  }

  method CreateObject() returns (item: Item)
    ensures fresh(item) && IsNew(item) && Holds(item, None, Object(Nil))
  {
    item := new Item();
    item.kind := OBJECT;
    NewHolds(item, Object(Nil));
  }

  method CreateNumber(num: Num) returns (item: Item)
    ensures fresh(item) && IsNew(item) && Holds(item, None, Number(num))
  {
    item := new Item();
    item.kind := NUMBER;
    item.valuedouble := num;
    NewHolds(item, Number(num));
  }

  method CreateString(text: Text) returns (item: Item)
    ensures fresh(item) && IsNew(item) && Holds(item, None, Str(text))
  {
    item := new Item();
    item.kind := STRING;
    item.valuestring := text;
    NewHolds(item, Str(text));
  }

  /** Gives an item its name. */
  method Rename(item: Item, name: Text, ghost key: Option<Text>, ghost v: Json)
    requires Holds(item, key, v)
    modifies item`name
    ensures Holds(item, Some(name), v) && item.name == Some(name)
  {
    item.name := Some(name);
  }

  lemma ItsRow(object_: Item, key: Option<Text>, x: Items)
    requires Holds(object_, key, Object(x))
    ensures Row(object_.children, object_.below, x) && IsList(object_, object_.children)
    ensures object_ !in object_.below && OwnFields(object_, key, Object(x)) && object_ !in object_.children
  {
    hide HoldAll, Below, Linked;
  }

  lemma RowIsHeld(object_: Item, key: Option<Text>, x: Items)
    requires Row(object_.children, object_.below, x) && object_.child == At(object_.children, 0)
    requires OwnFields(object_, key, Object(x)) && object_ !in object_.below
    ensures Holds(object_, key, Object(x))
  {
    hide HoldAll, Below, Linked;
  }

  lemma OwnObject(object_: Item, key: Option<Text>, x: Items, y: Items)
    ensures OwnFields(object_, key, Object(x)) <==> OwnFields(object_, key, Object(y))
  {
  }

  /** Links one more item behind the row. */
  method AppendToRow(object_: Item, item: Item, ghost s: seq<Item>, ghost under: set<Item>, ghost x: Items,
                     ghost key: Option<Text>, ghost v: Json)
    requires Row(s, under, x) && IsList(object_, s) && Holds(item, key, v) && IsFree(item)
    requires ({object_} + under) !! ({item} + item.below)
    requires object_ !in under
    modifies object_`child, item`prev, s`next, s`prev
    ensures Row(s + [item], under + {item} + item.below, Append(x, Cons(key, v, Nil)))
    ensures IsList(object_, s + [item])
  {
    hide HoldAll, Below, Linked, Append, OwnFields;
    HoldAllAppend(s, x, item, key, v);
    InUnderAppend(s, under, item);
    ghost var more := s + [item];
    MembersUnder(more, under + {item} + item.below);
    assert item in more && object_ !in Below(more) && forall o :: o in s ==> o in more;
    AddItemToArray(object_, item, s);
  }

  /** Appends a free item, which shares nothing with the object, under a name. */
  method AddItemToObject(object_: Item, name: Text, item: Item, ghost key: Option<Text>, ghost x: Items,
                         ghost k: Option<Text>, ghost v: Json)
    requires Holds(object_, key, Object(x)) && Holds(item, k, v) && IsFree(item)
    requires ({object_} + object_.below) !! ({item} + item.below)
    modifies object_`child, object_`children, object_`below, object_.children`next, object_.children`prev
    modifies item`name, item`prev
    ensures Holds(object_, key, Object(Append(x, Cons(Some(name), v, Nil))))
    ensures object_.below == old(object_.below + {item} + item.below)
    ensures object_.children == old(object_.children) + [item]
  {
    hide HoldAll, Below, Linked, Append, OwnFields;
    ghost var s, under := object_.children, object_.below;
    ItsRow(object_, key, x);
    Rename(item, name, k, v);
    AppendToRow(object_, item, s, under, x, Some(name), v);
    object_.children := s + [item];
    object_.below := under + {item} + item.below;
    assert OwnFields(object_, key, Object(Append(x, Cons(Some(name), v, Nil)))) by {
      OwnObject(object_, key, x, Append(x, Cons(Some(name), v, Nil)));
    }
    RowIsHeld(object_, key, Append(x, Cons(Some(name), v, Nil)));
  }

  /** A new number under a name. */
  method AddNumberToObject(object_: Item, name: Text, number: Num, ghost key: Option<Text>, ghost x: Items)
    requires Holds(object_, key, Object(x))
    modifies object_`child, object_`children, object_`below, object_.children`next, object_.children`prev
    ensures Holds(object_, key, Object(Append(x, Cons(Some(name), Number(number), Nil))))
    ensures |object_.children| == |old(object_.children)| + 1 && old(object_.children) <= object_.children
    ensures fresh(object_.children[|object_.children| - 1]) && fresh(object_.below - old(object_.below))
  {
    hide Holds, Append;
    var item := CreateNumber(number);
    AddItemToObject(object_, name, item, key, x, None, Number(number));
  }

  /** A new string under a name. */
  method AddStringToObject(object_: Item, name: Text, text: Text, ghost key: Option<Text>, ghost x: Items)
    requires Holds(object_, key, Object(x))
    modifies object_`child, object_`children, object_`below, object_.children`next, object_.children`prev
    ensures Holds(object_, key, Object(Append(x, Cons(Some(name), Str(text), Nil))))
    ensures |object_.children| == |old(object_.children)| + 1 && old(object_.children) <= object_.children
    ensures fresh(object_.children[|object_.children| - 1]) && fresh(object_.below - old(object_.below))
  {
    hide Holds, Append;
    var item := CreateString(text);
    AddItemToObject(object_, name, item, key, x, None, Str(text));
  }
}
