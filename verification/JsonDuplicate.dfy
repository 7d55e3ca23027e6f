/** Recursive copies of item trees. */
module JsonDuplicate {
  import opened Bytes
  import opened CText
  import opened JsonItems
  import opened JsonList
  import opened JsonTree

  /** A copy of the own fields, without links and without children. */
  method CopyFields(item: Item, ghost key: Option<Text>, ghost v: Json) returns (newitem: Item)
    requires OwnFields(item, key, v)
    ensures fresh(newitem) && OwnFields(newitem, key, v) && IsFree(newitem)
    ensures newitem.child == null && newitem.children == [] && newitem.below == {}
  {
    newitem := new Item();
    newitem.kind := item.kind;
    newitem.valuestring := item.valuestring;
    newitem.valuedouble := item.valuedouble;
    newitem.name := item.name;
  }

  /** Duplicates an item, and with `recurse` everything below it. The source stays as it is, and the copy shares
      nothing with it. */
  method Duplicate(item: Item, recurse: bool, ghost key: Option<Text>, ghost v: Json) returns (newitem: Item)
    requires Holds(item, key, v)
    ensures fresh(newitem) && fresh(newitem.below) && IsFree(newitem)
    ensures recurse ==> Holds(newitem, key, v)
    ensures !recurse ==> OwnFields(newitem, key, v) && newitem.child == null
    decreases v, 1
  {
    newitem := CopyFields(item, key, v);
    if recurse {
      DuplicateChildren(item, newitem, key, v);
    }
  }

  /** The copies made so far hang together below `newitem`; everything in them is in `under`. */
  ghost predicate Copied(newitem: Item, copies: seq<Item>, under: set<Item>, done: Items)
    reads newitem`child, copies`name, copies`kind, copies`valuestring, copies`valuedouble, copies`child,
          copies`children, copies`below, Below(copies), copies`next, copies`prev
  {
    && HoldAll(copies, done) && Linked(copies)
    && newitem !in under && Below(copies) <= under
    && (forall k :: 0 <= k < |copies| ==> copies[k] in under && copies[k] !in Below(copies))
    && newitem.child == At(copies, 0)
  }

  /** Sets the links to one more copy. */
  method LinkCopy(newitem: Item, next: Item?, newchild: Item, ghost copies: seq<Item>, ghost under: set<Item>,
                  ghost done: Items, ghost key: Option<Text>, ghost v: Json)
    requires Copied(newitem, copies, under, done) && next == At(copies, |copies| - 1)
    requires Holds(newchild, key, v) && IsFree(newchild)
    requires newchild !in under && newchild != newitem && newitem !in newchild.below && newchild.below !! under
    requires newchild !in newchild.below
    modifies newitem`child, newchild`prev, copies`next
    ensures Copied(newitem, copies + [newchild], under + {newchild} + newchild.below, Append(done, Cons(key, v, Nil)))
  {
    hide HoldAll, Holds, OwnFields, Append, Below, Linked;
    HoldAllAppend(copies, done, newchild, key, v);
    BelowAppend(copies, newchild);
    Apart(copies, under, newitem, newchild);
    LinkNext(newitem, next, newchild, copies);
  }

  /** Copies one child and links the copy. */
  method CopyNext(newitem: Item, next: Item?, child: Item, ghost copies: seq<Item>, ghost under: set<Item>,
                  ghost done: Items, ghost key: Option<Text>, ghost v: Json) returns (newchild: Item)
    requires Copied(newitem, copies, under, done) && next == At(copies, |copies| - 1) && Holds(child, key, v)
    modifies newitem`child, copies`next
    ensures fresh(newchild) && fresh(newchild.below)
    ensures Copied(newitem, copies + [newchild], under + {newchild} + newchild.below, Append(done, Cons(key, v, Nil)))
    decreases v, 2
  {
    hide HoldAll, Append;
    newchild := Duplicate(child, true, key, v);
    LinkCopy(newitem, next, newchild, copies, under, done, key, v);
  }

  /** Walks the chain of children and links the copies one after the other. */
  method DuplicateChildren(item: Item, newitem: Item, ghost key: Option<Text>, ghost v: Json)
    requires Holds(item, key, v) && OwnFields(newitem, key, v) && newitem !in item.below && newitem != item
    requires newitem.child == null && newitem.children == [] && newitem.below == {}
    requires newitem !in item.children
    modifies newitem`child, newitem`children, newitem`below
    ensures fresh(newitem.below) && Holds(newitem, key, v)
    decreases v, 0
  {
    hide HoldAll, Append, Holds, Copied, Left, OwnFields, Below, Linked, Distinct;
    var child, next: Item? := item.child, null;
    ghost var i, done, rest := 0, Nil, Children(v);
    ghost var copies: seq<Item>, under: set<Item> := [], {};
    StartCopy(item, newitem, key, v);
    while child != null
      invariant 0 <= i <= |item.children| && child == At(item.children, i)
      invariant Append(done, rest) == Children(v) && (rest == Children(v) || rest < Children(v))
      invariant Left(item, i, rest)
      invariant Copied(newitem, copies, under, done) && fresh(under) && fresh(copies)
      invariant next == At(copies, |copies| - 1)
      invariant OwnFields(newitem, key, v) && (v.Array? || v.Object? || rest == Nil)
      decreases |item.children| - i
    {
      LeftNext(item, i, rest);
      var newchild := CopyNext(newitem, next, child, copies, under, done, rest.key, rest.value);
      next := newchild;
      copies := copies + [newchild];
      under := under + {newchild} + newchild.below;
      MoveOn(done, rest);
      done := Append(done, Cons(rest.key, rest.value, Nil));
      rest := rest.next;
      child := child.next;
      i := i + 1;
    }
    EndCopy(item, i, rest, done);
    Finish(newitem, copies, under, key, v);
  }

  lemma StartCopy(item: Item, newitem: Item, key: Option<Text>, v: Json)
    requires Holds(item, key, v) && newitem.child == null
    ensures Left(item, 0, Children(v)) && item.child == At(item.children, 0) && Linked(item.children)
    ensures Copied(newitem, [], {}, Nil) && Append(Nil, Children(v)) == Children(v)
  {
    assert item.children[0..] == item.children;
  }

  lemma EndCopy(item: Item, i: nat, rest: Items, done: Items)
    requires Left(item, i, rest) && i == |item.children|
    ensures Append(done, rest) == done
  {
    HoldAllLength(item.children[i..], rest);
    AppendNil(done);
  }

  ghost method Finish(newitem: Item, copies: seq<Item>, under: set<Item>, key: Option<Text>, v: Json)
    requires OwnFields(newitem, key, v) && Copied(newitem, copies, under, Children(v)) && newitem !in under
    modifies newitem`children, newitem`below
    ensures newitem.below == under && Holds(newitem, key, v)
  {
    newitem.children := copies;
    newitem.below := under;
    if !v.Array? && !v.Object? {
      HoldAllLength(copies, Nil);
    }
  }
}
