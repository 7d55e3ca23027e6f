/** The trees that linked items hold. */
module JsonItems {
  import opened Bytes
  import opened CText
  import opened JsonList
  import opened JsonTree

  /** Everything below a row of siblings. */
  ghost function Below(s: seq<Item>): set<Item>
    reads s`below
  {
    set k, o | 0 <= k < |s| && o in s[k].below :: o
  }

  /** The own fields of an item, without its links to siblings. */
  ghost predicate OwnFields(n: Item, key: Option<Text>, v: Json)
    reads n`name, n`kind, n`valuestring, n`valuedouble
  {
    && n.name == key
    && match v
       case Null => n.kind == NULL
       case False => n.kind == FALSE
       case True => n.kind == TRUE
       case Number(x) => n.kind == NUMBER && n.valuedouble == x
       case Str(s) => n.kind == STRING && n.valuestring == s
       case Array(_) => n.kind == ARRAY
       case Object(_) => n.kind == OBJECT
  }

  /** The item and everything below it form the tree `v` under the name `key`. */
  ghost predicate Holds(n: Item, key: Option<Text>, v: Json)
    reads n`name, n`kind, n`valuestring, n`valuedouble, n`child, n`children, n`below, n.below
    decreases v, 1
  {
    && OwnFields(n, key, v)
    && n !in n.below
    && n.child == At(n.children, 0)
    && (forall i :: 0 <= i < |n.children| ==> n.children[i] in n.below)
    && Below(n.children) <= n.below
    && (forall i :: 0 <= i < |n.children| ==> n.children[i] !in Below(n.children))
    && Linked(n.children)
    && match v
       case Array(child) => HoldAll(n.children, child)
       case Object(child) => HoldAll(n.children, child)
       case _ => n.children == []
  }

  /** A row of items forms a row of trees. */
  ghost predicate HoldAll(s: seq<Item>, items: Items)
    reads s`name, s`kind, s`valuestring, s`valuedouble, s`child, s`children, s`below, Below(s)
    decreases items, 0
  {
    match items
    case Nil => s == []
    case Cons(k, v, next) => s != [] && Holds(s[0], k, v) && HoldAll(s[1..], next)
  }

  /** One more sibling at the end. */
  lemma {:induction false} HoldAllAppend(s: seq<Item>, items: Items, n: Item, key: Option<Text>, v: Json)
    requires HoldAll(s, items) && Holds(n, key, v)
    ensures HoldAll(s + [n], Append(items, Cons(key, v, Nil)))
    decreases items
  {
    match items
    case Nil =>
      assert (s + [n])[1..] == [];
    case Cons(_, _, next) =>
      HoldAllAppend(s[1..], next, n, key, v);
      assert (s + [n])[1..] == s[1..] + [n];
  }

  lemma {:induction false} HoldAllLength(s: seq<Item>, items: Items)
    requires HoldAll(s, items)
    ensures items == Nil <==> s == []
  {
  }

  function Children(v: Json): Items {
    match v
    case Array(child) => child
    case Object(child) => child
    case _ => Nil
  }

  /** An item holds no more than one tree. */
  lemma {:induction false} HoldsOne(n: Item, key: Option<Text>, v: Json, key': Option<Text>, v': Json)
    requires Holds(n, key, v) && Holds(n, key', v')
    ensures v == v'
    decreases v, 1
  {
    match v
    case Array(child) => HoldAllOne(n.children, child, v'.child);
    case Object(child) => HoldAllOne(n.children, child, v'.child);
    case _ =>
  }

  lemma {:induction false} HoldAllOne(s: seq<Item>, x: Items, y: Items)
    requires HoldAll(s, x) && HoldAll(s, y)
    ensures x == y
    decreases x, 0
  {
    if x != Nil {
      HoldsOne(s[0], x.key, x.value, y.key, y.value);
      HoldAllOne(s[1..], x.next, y.next);
    }
  }

  // Walking the children of an item.

  /** The children and what is below them are below the item. */
  ghost predicate Nested(item: Item)
    reads item`children, item`below, item.children`below
  {
    forall c :: c in item.children ==> c in item.below && c.below <= item.below
  }

  lemma StartWalk(item: Item, key: Option<Text>, v: Json)
    requires Holds(item, key, v)
    ensures Left(item, 0, Children(v)) && item.child == At(item.children, 0) && Linked(item.children)
    ensures Nested(item)
  {
    assert item.children[0..] == item.children;
    forall c | c in item.children
      ensures c.below <= item.below
    {
      var k :| 0 <= k < |item.children| && item.children[k] == c;
      forall o | o in c.below ensures o in Below(item.children) {
        assert o in item.children[k].below;
      }
    }
  }

  lemma OwnName(item: Item, key: Option<Text>, v: Json)
    requires Holds(item, key, v)
    ensures item.name == key
  {
  }

  /** One step along the chain. */
  lemma Walk(item: Item, i: nat, e: Item)
    requires Linked(item.children) && e == At(item.children, i)
    ensures i < |item.children| && e == item.children[i] && e in item.children
    ensures e.next == At(item.children, i + 1)
  {
  }

  lemma EndWalk(item: Item, i: nat, rest: Items, e: Item?)
    requires Left(item, i, rest) && e == At(item.children, i)
    ensures rest == Nil <==> e == null
  {
    HoldAllLength(item.children[i..], rest);
  }

  /** The children from position `i` on form the rest of the tree. */
  ghost predicate Left(item: Item, i: nat, rest: Items)
    reads item`children, item`below, item.children`name, item.children`kind, item.children`valuestring,
          item.children`valuedouble, item.children`child, item.children`children, item.children`below, item.below
  {
    && i <= |item.children| && Below(item.children) <= item.below
    && Below(item.children[i..]) <= item.below
    && HoldAll(item.children[i..], rest)
  }

  /** One step along the chain, and whether another one follows. */
  lemma StepWalk(item: Item, i: nat, rest: Items, e: Item)
    requires Left(item, i, rest) && Linked(item.children) && e == At(item.children, i)
    ensures i < |item.children| && rest.Cons? && Holds(e, rest.key, rest.value) && Left(item, i + 1, rest.next)
    ensures e.next == At(item.children, i + 1) && (e.next == null <==> rest.next == Nil)
  {
    hide Holds, HoldAll, Left;
    LeftNext(item, i, rest);
    EndWalk(item, i + 1, rest.next, e.next);
  }

  lemma LeftNext(item: Item, i: nat, rest: Items)
    requires Left(item, i, rest) && i < |item.children|
    ensures rest.Cons? && Holds(item.children[i], rest.key, rest.value) && Left(item, i + 1, rest.next)
  {
    var s := item.children[i..];
    assert s[1..] == item.children[i + 1..];
    forall o | o in Below(s[1..]) ensures o in Below(s) {
      var k :| 0 <= k < |s[1..]| && o in s[1..][k].below;
      assert s[k + 1] == s[1..][k];
    }
  }

  lemma MoveOn(done: Items, rest: Items)
    requires rest.Cons?
    ensures Append(Append(done, Cons(rest.key, rest.value, Nil)), rest.next) == Append(done, rest)
  {
    AppendAssociative(done, Cons(rest.key, rest.value, Nil), rest.next);
  }

  // Rows of siblings that are being built.

  /** Linked siblings that hold a row of trees; they and everything below them are in `under`. */
  ghost predicate Row(s: seq<Item>, under: set<Item>, items: Items)
    reads s`name, s`kind, s`valuestring, s`valuedouble, s`child, s`children, s`below, Below(s), s`next, s`prev
  {
    HoldAll(s, items) && Linked(s) && InUnder(s, under)
  }

  ghost predicate InUnder(s: seq<Item>, under: set<Item>)
    reads s`below
  {
    Below(s) <= under && forall k :: 0 <= k < |s| ==> s[k] in under && s[k] !in Below(s)
  }

  lemma EmptyRow()
    ensures Row([], {}, Nil) && Below([]) == {}
  {
  }

  lemma MembersUnder(s: seq<Item>, under: set<Item>)
    requires InUnder(s, under)
    ensures forall o :: o in s ==> o in under && o !in Below(s)
  {
    hide Below;
    forall o | o in s
      ensures o in under && o !in Below(s)
    {
      var k :| 0 <= k < |s| && s[k] == o;
    }
  }

  lemma InUnderAppend(s: seq<Item>, under: set<Item>, n: Item)
    requires InUnder(s, under) && n !in under && n.below !! under && n !in n.below
    ensures InUnder(s + [n], under + {n} + n.below)
  {
    BelowAppend(s, n);
    forall k | 0 <= k < |s + [n]|
      ensures (s + [n])[k] in under + {n} + n.below && (s + [n])[k] !in Below(s + [n])
    {
      if k < |s| {
        assert (s + [n])[k] == s[k];
      }
    }
  }

  /** The next sibling of a row is linked but does not hold a tree yet. */
  ghost predicate Awaiting(s: seq<Item>, n: Item, under: set<Item>, items: Items)
    reads s`name, s`kind, s`valuestring, s`valuedouble, s`child, s`children, s`below, Below(s), s`next, s`prev,
          n`next, n`prev
  {
    HoldAll(s, items) && Linked(s + [n]) && InUnder(s, under) && n !in under
  }

  lemma RowGrows(s: seq<Item>, n: Item, under: set<Item>, items: Items, key: Option<Text>, v: Json)
    requires Awaiting(s, n, under, items) && Holds(n, key, v) && n.below !! under
    ensures Row(s + [n], under + {n} + n.below, Append(items, Cons(key, v, Nil)))
    ensures Below(s + [n]) <= under + {n} + n.below
  {
    hide HoldAll, Linked, Append, Below;
    InUnderAppend(s, under, n);
    HoldAllAppend(s, items, n, key, v);
  }

  lemma BelowAppend(s: seq<Item>, n: Item)
    ensures Below(s + [n]) == Below(s) + n.below
  {
    forall o ensures o in Below(s + [n]) <==> o in Below(s) + n.below {
      if o in n.below {
        assert (s + [n])[|s|] == n;
      }
      if o in Below(s) {
        var k :| 0 <= k < |s| && o in s[k].below;
        assert (s + [n])[k] == s[k];
      }
    }
  }

  /** Puts one more sibling behind the last one, or below the parent when it is the first. */
  method LinkNext(newitem: Item, next: Item?, newchild: Item, ghost copies: seq<Item>)
    requires IsList(newitem, copies) && next == At(copies, |copies| - 1)
    requires IsFree(newchild) && newchild !in copies && newchild != newitem
    modifies newitem`child, newchild`prev, copies`next
    ensures IsList(newitem, copies + [newchild])
  {
    hide Distinct;
    if next != null {
      Neighbours(copies, |copies| - 1);
      next.next := newchild;
      newchild.prev := next;
    } else {
      newitem.child := newchild;
    }
    LinkedAppend(copies, newchild);
  }

  /** None of the changed items is below one of the copies. */
  lemma Apart(copies: seq<Item>, under: set<Item>, newitem: Item, newchild: Item)
    requires Below(copies) <= under && newitem !in under && newchild !in under && newchild.below !! under
    requires newchild != newitem && newitem !in newchild.below && newchild !in newchild.below
    requires forall k :: 0 <= k < |copies| ==> copies[k] in under && copies[k] !in Below(copies)
    ensures var more := copies + [newchild];
      && newitem !in Below(more) && newitem !in more
      && (forall k :: 0 <= k < |more| ==> more[k] in under + {newchild} + newchild.below && more[k] !in Below(more))
  {
    BelowAppend(copies, newchild);
    var more := copies + [newchild];
    forall k | 0 <= k < |more|
      ensures more[k] in under + {newchild} + newchild.below && more[k] !in Below(more)
    {
      if k < |copies| {
        assert more[k] == copies[k];
      }
    }
  }

  lemma LinkedAppend(s: seq<Item>, n: Item)
    requires Distinct(s) && n !in s && n.next == null && n.prev == At(s, |s| - 1)
    requires forall i :: 0 <= i < |s| ==> s[i].next == if i == |s| - 1 then n else At(s, i + 1)
    requires forall i :: 0 <= i < |s| ==> s[i].prev == At(s, i - 1)
    ensures Linked(s + [n])
  {
    var t := s + [n];
    forall i | 0 <= i < |t|
      ensures t[i].next == At(t, i + 1) && t[i].prev == At(t, i - 1)
    {
    }
  }
}
