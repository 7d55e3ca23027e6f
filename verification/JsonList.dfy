/** Child lists: doubly linked siblings behind the first child of a container. */
module JsonList {
  import opened Bytes
  import opened CText
  import opened JsonTree

  /** The type tag of an item. */
  datatype Kind = NULL | FALSE | TRUE | NUMBER | STRING | ARRAY | OBJECT

  /** One node: its links, its name, and its value. */
  class Item {
    var next: Item?
    var prev: Item?
    var child: Item?
    var kind: Kind
    var valuestring: Text
    var valuedouble: Num
    var name: Option<Text>
    /** The children in order, and every item below this one. */
    ghost var children: seq<Item>
    ghost var below: set<Item>

    constructor ()
      ensures next == null && prev == null && child == null && children == [] && below == {}
      ensures kind == NULL && name == None
    {
      next, prev, child := null, null, null;
      kind, valuestring, valuedouble, name := NULL, "", 0, None;
      children, below := [], {};
    }
  }

  predicate Distinct(s: seq<Item>) {
    forall i, j :: 0 <= i < j < |s| ==> s[i] != s[j]
  }

  function At(s: seq<Item>, i: int): Item? {
    if 0 <= i < |s| then s[i] else null
  }

  /** An item and its neighbours occur once. */
  lemma Neighbours(s: seq<Item>, k: nat)
    requires Distinct(s) && k < |s|
    ensures forall i :: 0 <= i < |s| && i != k ==> s[i] != s[k]
    ensures k > 0 ==> forall i :: 0 <= i < |s| && i != k - 1 ==> s[i] != s[k - 1]
    ensures k + 1 < |s| ==> forall i :: 0 <= i < |s| && i != k + 1 ==> s[i] != s[k + 1]
  {
  }

  /** Every item points to its neighbours; the first has no predecessor and the last no successor. */
  ghost predicate Linked(s: seq<Item>)
    reads s`next, s`prev
  {
    && Distinct(s)
    && forall i :: 0 <= i < |s| ==> s[i].next == At(s, i + 1) && s[i].prev == At(s, i - 1)
  }

  ghost predicate IsList(parent: Item, s: seq<Item>)
    reads parent`child, s`next, s`prev
  {
    parent !in s && parent.child == At(s, 0) && Linked(s)
  }

  predicate IsFree(item: Item)
    reads item`next, item`prev
  {
    item.next == null && item.prev == null
  }

  method GetArraySize(list: Item?, ghost s: seq<Item>) returns (size: nat)
    requires list != null ==> IsList(list, s)
    ensures size == if list == null then 0 else |s|
  {
    size := 0;
    if list == null {
      return;
    }
    var child := list.child;
    while child != null
      invariant size <= |s| && child == At(s, size)
      decreases |s| - size
    {
      size := size + 1;
      child := child.next;
    }
  }

  method GetArrayItem(list: Item?, index: int, ghost s: seq<Item>) returns (item: Item?)
    requires list != null ==> IsList(list, s)
    ensures item == if list == null then null else At(s, index)
  {
    if index < 0 || list == null {
      return null;
    }
    var current_child, left := list.child, index;
    while current_child != null && left > 0
      invariant 0 <= left <= index && index - left <= |s| && current_child == At(s, index - left)
    {
      left := left - 1;
      current_child := current_child.next;
    }
    item := current_child;
  }

  method SuffixObject(prev: Item, item: Item)
    modifies prev`next, item`prev
    ensures prev.next == item && item.prev == prev
  {
    prev.next := item;
    item.prev := prev;
  }

  /** Appends a free item. */
  method AddItemToArray(list: Item, item: Item, ghost s: seq<Item>)
    requires IsList(list, s) && item !in s && item != list && IsFree(item)
    modifies list`child, item`prev, s`next, s`prev
    ensures IsList(list, s + [item])
  {
    var child := list.child;
    if child == null {
      list.child := item;
    } else {
      ghost var k := 0;
      while child.next != null
        invariant 0 <= k < |s| && child == s[k]
        decreases |s| - k
      {
        child := child.next;
        k := k + 1;
      }
      SuffixObject(child, item);
    }
  }

  /** The sequence with `x` in front of position `k`, or at the end when there is no such position. */
  function Inserted(s: seq<Item>, k: nat, x: Item): seq<Item> {
    if k < |s| then s[..k] + [x] + s[k..] else s + [x]
  }

  function Removed(s: seq<Item>, k: nat): seq<Item>
    requires k < |s|
  {
    s[..k] + s[k + 1..]
  }

  /** Inserts a free item; a negative position changes nothing. */
  method InsertItemInArray(list: Item, which: int, newitem: Item, ghost s: seq<Item>)
    requires IsList(list, s) && newitem !in s && newitem != list && IsFree(newitem)
    modifies list`child, newitem`next, newitem`prev, s`next, s`prev
    ensures which < 0 ==> IsList(list, s) && unchanged(list, newitem) && unchanged(s)
    ensures which >= 0 ==> IsList(list, Inserted(s, which, newitem))
  {
    if which < 0 {
      return;
    }
    var after_inserted := GetArrayItem(list, which, s);
    if after_inserted == null {
      AddItemToArray(list, newitem, s);
      return;
    }
    newitem.next := after_inserted;
    newitem.prev := after_inserted.prev;
    after_inserted.prev := newitem;
    if after_inserted == list.child {
      list.child := newitem;
    } else {
      newitem.prev.next := newitem;
    }
    InsertedLinked(list, s, which, newitem);
  }

  /** The links after an insertion in the middle, told from the links before it. */
  lemma InsertedLinked(list: Item, s: seq<Item>, k: nat, x: Item)
    requires k < |s| && Distinct(s) && x !in s
    requires x.next == s[k] && x.prev == At(s, k - 1)
    requires forall i :: 0 <= i < |s| ==> s[i].next == if i == k - 1 then x else At(s, i + 1)
    requires forall i :: 0 <= i < |s| ==> s[i].prev == if i == k then x else At(s, i - 1)
    requires list !in s && list != x && list.child == if k == 0 then x else s[0]
    ensures IsList(list, Inserted(s, k, x))
  {
    var t := Inserted(s, k, x);
    forall i | 0 <= i < |t|
      ensures t[i].next == At(t, i + 1) && t[i].prev == At(t, i - 1)
    {
      if i < k {
        assert t[i] == s[i];
      } else if i > k {
        assert t[i] == s[i - 1];
      }
    }
  }

  /** Takes an item out of its list; afterwards it points nowhere. */
  method DetachItemViaPointer(parent: Item, item: Item, ghost s: seq<Item>, ghost k: nat) returns (detached: Item)
    requires IsList(parent, s) && k < |s| && item == s[k]
    modifies parent`child, s`next, s`prev
    ensures detached == item && IsFree(item)
    ensures IsList(parent, Removed(s, k)) && item !in Removed(s, k)
  {
    hide Distinct;
    Neighbours(s, k);
    if item.prev != null {
      item.prev.next := item.next;
    }
    if item.next != null {
      item.next.prev := item.prev;
    }
    if item == parent.child {
      parent.child := item.next;
    }
    item.prev := null;
    item.next := null;
    detached := item;
    RemovedLinked(parent, s, k);
  }

  lemma RemovedLinked(list: Item, s: seq<Item>, k: nat)
    requires k < |s| && Distinct(s)
    requires forall i :: 0 <= i < |s| && i != k ==> s[i].next == if i == k - 1 then At(s, k + 1) else At(s, i + 1)
    requires forall i :: 0 <= i < |s| && i != k ==> s[i].prev == if i == k + 1 then At(s, k - 1) else At(s, i - 1)
    requires list !in s && list.child == if k == 0 then At(s, 1) else s[0]
    ensures IsList(list, Removed(s, k))
  {
    var t := Removed(s, k);
    forall i | 0 <= i < |t|
      ensures t[i].next == At(t, i + 1) && t[i].prev == At(t, i - 1)
    {
      if i < k {
        assert t[i] == s[i];
      } else {
        assert t[i] == s[i + 1];
      }
    }
  }

  /** Takes out the item at a position, if there is one. */
  method DetachItemFromArray(list: Item, which: int, ghost s: seq<Item>) returns (detached: Item?)
    requires IsList(list, s)
    modifies list`child, s`next, s`prev
    ensures detached == At(s, which)
    ensures 0 <= which < |s| ==> IsList(list, Removed(s, which)) && IsFree(s[which])
    ensures !(0 <= which < |s|) ==> IsList(list, s) && unchanged(list) && unchanged(s)
  {
    if which < 0 {
      return null;
    }
    var item := GetArrayItem(list, which, s);
    if item == null {
      return null;
    }
    detached := DetachItemViaPointer(list, item, s, which);
  }

  /** Puts a free item in the place of another one, which is then unlinked (and deleted). */
  method ReplaceItemViaPointer(parent: Item, item: Item, replacement: Item, ghost s: seq<Item>, ghost k: nat)
    requires IsList(parent, s) && k < |s| && item == s[k]
    requires replacement != item ==> replacement !in s && replacement != parent
    modifies parent`child, replacement`next, replacement`prev, s`next, s`prev
    ensures IsList(parent, s[k := replacement])
    ensures replacement != item ==> IsFree(item)
  {
    if replacement == item {
      assert s[k := replacement] == s;
      return;
    }
    Exchange(parent, item, replacement, s, k);
  }

  method Exchange(parent: Item, item: Item, replacement: Item, ghost s: seq<Item>, ghost k: nat)
    requires IsList(parent, s) && k < |s| && item == s[k] && replacement !in s && replacement != parent
    modifies parent`child, replacement`next, replacement`prev, s`next, s`prev
    ensures IsList(parent, s[k := replacement]) && IsFree(item)
  {
    hide Distinct;
    Neighbours(s, k);
    replacement.next := item.next;
    replacement.prev := item.prev;
    if replacement.next != null {
      replacement.next.prev := replacement;
    }
    if replacement.prev != null {
      replacement.prev.next := replacement;
    }
    if parent.child == item {
      parent.child := replacement;
    }
    item.next := null;
    item.prev := null;
    ReplacedLinked(parent, s, k, replacement);
  }

  lemma ReplacedLinked(list: Item, s: seq<Item>, k: nat, x: Item)
    requires k < |s| && Distinct(s) && x !in s
    requires x.next == At(s, k + 1) && x.prev == At(s, k - 1)
    requires forall i :: 0 <= i < |s| && i != k ==> s[i].next == if i == k - 1 then x else At(s, i + 1)
    requires forall i :: 0 <= i < |s| && i != k ==> s[i].prev == if i == k + 1 then x else At(s, i - 1)
    requires list !in s && list != x && list.child == if k == 0 then x else s[0]
    ensures IsList(list, s[k := x])
  {
    var t := s[k := x];
    forall i | 0 <= i < |t|
      ensures t[i].next == At(t, i + 1) && t[i].prev == At(t, i - 1)
    {
    }
  }

  method ReplaceItemInArray(list: Item, which: int, newitem: Item, ghost s: seq<Item>)
    requires IsList(list, s)
    requires 0 <= which < |s| && newitem != s[which] ==> newitem !in s && newitem != list
    modifies list`child, newitem`next, newitem`prev, s`next, s`prev
    ensures 0 <= which < |s| ==> IsList(list, s[which := newitem])
    ensures 0 <= which < |s| && newitem != s[which] ==> IsFree(s[which])
    ensures !(0 <= which < |s|) ==> IsList(list, s) && unchanged(list, newitem) && unchanged(s)
  {
    if which < 0 {
      return;
    }
    var item := GetArrayItem(list, which, s);
    if item != null {
      ReplaceItemViaPointer(list, item, newitem, s, which);
    }
  }

  /** Detaching what was inserted restores the list. */
  lemma {:induction false} DetachUndoesInsert(s: seq<Item>, k: nat, x: Item)
    ensures Removed(Inserted(s, k, x), if k < |s| then k else |s|) == s
  {
    if k < |s| {
      assert Removed(s[..k] + [x] + s[k..], k) == s[..k] + s[k..] == s;
    }
  }
}
