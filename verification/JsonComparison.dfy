/** Comparison of linked items, walking their child lists. */
module JsonComparison {
  import opened Bytes
  import opened CText
  import opened JsonCompare
  import opened JsonDuplicate
  import opened JsonItems
  import opened JsonList
  import opened JsonTree

  /** The two trees have no item in common. */
  ghost predicate Separate(a: Item, b: Item)
    reads a`below, b`below
  {
    ({a} + a.below) !! ({b} + b.below)
  }

  /** Where the shortcut for the very same item makes no difference: it is never taken, or never wrong. */
  ghost predicate Exact(a: Item, b: Item, va: Json, vb: Json, caseSensitive: bool)
    reads a`below, b`below
  {
    Separate(a, b) || Consistent(va, caseSensitive) || Consistent(vb, caseSensitive)
  }

  /** The first member whose name matches. */
  method GetObjectItem(object_: Item, name: Option<Text>, caseSensitive: bool, ghost key: Option<Text>, ghost v: Json)
    returns (current_element: Item?, ghost w: Json)
    requires Holds(object_, key, v) && v.Object? && Proper(v)
    ensures current_element == null <==> Lookup(v.child, name, caseSensitive) == None
    ensures current_element != null ==>
      && Lookup(v.child, name, caseSensitive) == Some(w)
      && current_element in object_.children && Holds(current_element, current_element.name, w) && Proper(w)
  {
    hide Holds, HoldAll, Left, Below, Lowered, Linked, At, Nested;
    w := Null;
    if name == None {
      return null, w;
    }
    ghost var i, rest := 0, v.child;
    StartWalk(object_, key, v);
    current_element := object_.child;
    while current_element != null
      invariant 0 <= i <= |object_.children| && current_element == At(object_.children, i)
      invariant Left(object_, i, rest) && ProperItems(rest, true)
      invariant Lookup(v.child, name, caseSensitive) == Lookup(rest, name, caseSensitive)
      decreases |object_.children| - i
    {
      Walk(object_, i, current_element);
      LeftNext(object_, i, rest);
      OwnName(current_element, rest.key, rest.value);
      var same := current_element.name.value == name.value;
      if !caseSensitive {
        same := CaseInsensitiveEqual(name.value, current_element.name.value);
      }
      if same {
        w := rest.value;
        return;
      }
      current_element := current_element.next;
      i, rest := i + 1, rest.next;
    }
    EndWalk(object_, i, rest, null);
  }

  /** Children of separate items are separate, and the ones of consistent trees consistent. */
  lemma ExactBelow(a: Item, b: Item, va: Json, vb: Json, c: Item, d: Item, vc: Json, vd: Json, caseSensitive: bool)
    requires Nested(a) && c in a.children && Nested(b) && d in b.children
    requires Consistent(va, caseSensitive) ==> Consistent(vc, caseSensitive)
    requires Consistent(vb, caseSensitive) ==> Consistent(vd, caseSensitive)
    ensures Exact(a, b, va, vb, caseSensitive) ==> Exact(c, d, vc, vd, caseSensitive)
  {
    hide Consistent;
  }

  lemma ProperChildren(v: Json, caseSensitive: bool)
    requires Proper(v) && (v.Array? || v.Object?)
    ensures ProperItems(v.child, v.Object?) && Size(v) == 1 + SizeOfItems(v.child)
    ensures Consistent(v, caseSensitive) ==> ConsistentIn(v.child, caseSensitive)
  {
  }

  /** Compares two items and everything below them. The very same item, wherever it is met, is equal to itself without
      a look at its members, so that equal values always compare equal, and other values only when the trees have items
      in common and in both of them there are namesakes that do not agree. */
  method CompareItems(a: Item?, b: Item?, caseSensitive: bool, ghost ka: Option<Text>, ghost va: Json,
                      ghost kb: Option<Text>, ghost vb: Json) returns (same: bool)
    requires a != null ==> Holds(a, ka, va) && Proper(va)
    requires b != null ==> Holds(b, kb, vb) && Proper(vb)
    ensures a == null || b == null ==> !same
    ensures a != null && a == b ==> same
    ensures a != null && b != null && Compare(va, vb, caseSensitive) ==> same
    ensures a != null && b != null && Exact(a, b, va, vb, caseSensitive) ==> same == Compare(va, vb, caseSensitive)
    decreases Size(va) + Size(vb), 0
  {
    if a == null || b == null || a.kind != b.kind {
      return false;
    }
    if a == b {
      HoldsOne(a, ka, va, kb, vb);
      CompareWithCopy(va, caseSensitive);
      return true;
    }
    match a.kind {
      case FALSE => same := true;
      case TRUE => same := true;
      case NULL => same := true;
      case NUMBER => same := a.valuedouble == b.valuedouble;
      case STRING => same := a.valuestring == b.valuestring;
      case ARRAY => same := CompareArrays(a, b, caseSensitive, ka, va, kb, vb);
      case OBJECT =>
        same := CompareObject(a, b, caseSensitive, ka, va, kb, vb);
        if same {
          same := CompareObject(b, a, caseSensitive, kb, vb, ka, va);
        }
    }
  }

  /** What is left to compare when all elements before `x` and `y` have been found equal. */
  ghost predicate ElementsLeft(a: Item, b: Item, va: Json, vb: Json, x: Items, y: Items, caseSensitive: bool)
    requires va.Array? && vb.Array?
    reads a`below, b`below
  {
    && ProperItems(x, false) && ProperItems(y, false)
    && SizeOfItems(x) + SizeOfItems(y) <= SizeOfItems(va.child) + SizeOfItems(vb.child)
    && (Consistent(va, caseSensitive) ==> ConsistentIn(x, caseSensitive))
    && (Consistent(vb, caseSensitive) ==> ConsistentIn(y, caseSensitive))
    && (CompareElements(va.child, vb.child, caseSensitive) ==> CompareElements(x, y, caseSensitive))
    && (Exact(a, b, va, vb, caseSensitive) && CompareElements(x, y, caseSensitive) ==>
      CompareElements(va.child, vb.child, caseSensitive))
  }

  lemma AllElementsLeft(a: Item, b: Item, va: Json, vb: Json, caseSensitive: bool)
    requires va.Array? && vb.Array? && Proper(va) && Proper(vb)
    ensures ElementsLeft(a, b, va, vb, va.child, vb.child, caseSensitive)
  {
    hide Exact;
  }

  /** The elements are smaller and as fit for comparing as the arrays. */
  lemma ElementSteps(a: Item, b: Item, va: Json, vb: Json, x: Items, y: Items, caseSensitive: bool)
    requires va.Array? && vb.Array? && x.Cons? && y.Cons? && ElementsLeft(a, b, va, vb, x, y, caseSensitive)
    ensures Proper(x.value) && Proper(y.value) && Size(x.value) + Size(y.value) < Size(va) + Size(vb)
    ensures Consistent(va, caseSensitive) ==> Consistent(x.value, caseSensitive)
    ensures Consistent(vb, caseSensitive) ==> Consistent(y.value, caseSensitive)
  {
    hide Exact, CompareElements;
  }

  lemma NextElements(a: Item, b: Item, va: Json, vb: Json, x: Items, y: Items, same: bool, caseSensitive: bool)
    requires va.Array? && vb.Array? && x.Cons? && y.Cons? && ElementsLeft(a, b, va, vb, x, y, caseSensitive)
    requires Compare(x.value, y.value, caseSensitive) ==> same
    requires Exact(a, b, va, vb, caseSensitive) ==> same == Compare(x.value, y.value, caseSensitive)
    ensures if same then ElementsLeft(a, b, va, vb, x.next, y.next, caseSensitive)
            else !CompareElements(va.child, vb.child, caseSensitive)
  {
    hide Exact, Compare, Consistent;
  }

  lemma ElementsEnd(a: Item, b: Item, va: Json, vb: Json, x: Items, y: Items, caseSensitive: bool)
    requires va.Array? && vb.Array? && ElementsLeft(a, b, va, vb, x, y, caseSensitive) && (x == Nil || y == Nil)
    ensures CompareElements(va.child, vb.child, caseSensitive) ==> x == y
    ensures Exact(a, b, va, vb, caseSensitive) ==> (CompareElements(va.child, vb.child, caseSensitive) <==> x == y)
  {
    hide Exact, Consistent;
  }

  method CompareArrays(a: Item, b: Item, caseSensitive: bool, ghost ka: Option<Text>, ghost va: Json,
                       ghost kb: Option<Text>, ghost vb: Json) returns (same: bool)
    requires Holds(a, ka, va) && va.Array? && Proper(va) && Holds(b, kb, vb) && vb.Array? && Proper(vb)
    ensures CompareElements(va.child, vb.child, caseSensitive) ==> same
    ensures Exact(a, b, va, vb, caseSensitive) ==> same == CompareElements(va.child, vb.child, caseSensitive)
    decreases Size(va) + Size(vb), 0, 0
  {
    hide Holds, HoldAll, Left, Below, Compare, Proper, ProperItems, CompareElements, CompareMembers, SizeOfItems, Size,
         Distinct, OwnFields, Separate, Exact, Consistent, ConsistentIn, Nested, Linked, At, ElementsLeft;
    var a_element, b_element := a.child, b.child;
    ghost var i, x, y := 0, va.child, vb.child;
    StartWalk(a, ka, va);
    StartWalk(b, kb, vb);
    AllElementsLeft(a, b, va, vb, caseSensitive);
    while a_element != null && b_element != null
      invariant 0 <= i <= |a.children| && i <= |b.children|
      invariant a_element == At(a.children, i) && b_element == At(b.children, i)
      invariant Left(a, i, x) && Left(b, i, y) && ElementsLeft(a, b, va, vb, x, y, caseSensitive)
      decreases |a.children| - i
    {
      Walk(a, i, a_element);
      LeftNext(a, i, x);
      Walk(b, i, b_element);
      LeftNext(b, i, y);
      ElementSteps(a, b, va, vb, x, y, caseSensitive);
      ExactBelow(a, b, va, vb, a_element, b_element, x.value, y.value, caseSensitive);
      same := CompareItems(a_element, b_element, caseSensitive, x.key, x.value, y.key, y.value);
      NextElements(a, b, va, vb, x, y, same, caseSensitive);
      if !same {
        return;
      }
      a_element := a_element.next;
      b_element := b_element.next;
      i, x, y := i + 1, x.next, y.next;
    }
    EndWalk(a, i, x, a_element);
    EndWalk(b, i, y, b_element);
    ElementsEnd(a, b, va, vb, x, y, caseSensitive);
    // one of the arrays may be longer than the other
    same := a_element == b_element;
  }

  /** What is left to compare when all members before `x` have been found equal. */
  ghost predicate MembersLeft(a: Item, b: Item, va: Json, vb: Json, x: Items, caseSensitive: bool)
    requires va.Object? && vb.Object?
    reads a`below, b`below
  {
    && ProperItems(x, true) && SizeOfItems(x) <= SizeOfItems(va.child)
    && (Consistent(va, caseSensitive) ==> ConsistentIn(x, caseSensitive))
    && (CompareMembers(va.child, vb.child, caseSensitive) ==> CompareMembers(x, vb.child, caseSensitive))
    && (Exact(a, b, va, vb, caseSensitive) && CompareMembers(x, vb.child, caseSensitive) ==>
      CompareMembers(va.child, vb.child, caseSensitive))
  }

  lemma NextMember(a: Item, b: Item, va: Json, vb: Json, x: Items, same: bool, caseSensitive: bool)
    requires va.Object? && vb.Object? && MembersLeft(a, b, va, vb, x, caseSensitive) && x.Cons?
    requires var w := Lookup(vb.child, x.key, caseSensitive);
      if w == None then !same else
        && (Compare(x.value, w.value, caseSensitive) ==> same)
        && (Exact(a, b, va, vb, caseSensitive) ==> same == Compare(x.value, w.value, caseSensitive))
    ensures if same then MembersLeft(a, b, va, vb, x.next, caseSensitive)
            else !CompareMembers(va.child, vb.child, caseSensitive)
  {
    hide Compare, Lookup, Exact, Consistent;
  }

  lemma NoMemberLeft(a: Item, b: Item, va: Json, vb: Json, caseSensitive: bool)
    requires va.Object? && vb.Object? && MembersLeft(a, b, va, vb, Nil, caseSensitive)
    ensures Exact(a, b, va, vb, caseSensitive) ==> CompareMembers(va.child, vb.child, caseSensitive)
  {
    hide Exact, Consistent;
  }

  /** The member and its namesake are smaller and as fit for comparing as the objects. */
  lemma MemberSteps(a: Item, b: Item, va: Json, vb: Json, x: Items, caseSensitive: bool)
    requires va.Object? && vb.Object? && Proper(va) && Proper(vb)
    requires x.Cons? && MembersLeft(a, b, va, vb, x, caseSensitive)
    ensures x.key.Some? && Proper(x.value)
    ensures Consistent(va, caseSensitive) ==> Consistent(x.value, caseSensitive)
    ensures var w := Lookup(vb.child, x.key, caseSensitive); w.Some? ==>
      && Size(x.value) + Size(w.value) < Size(va) + Size(vb)
      && (Consistent(vb, caseSensitive) ==> Consistent(w.value, caseSensitive))
  {
    hide Exact, Lookup;
    ProperChildren(va, caseSensitive);
    ProperChildren(vb, caseSensitive);
    LookupSize(vb.child, x.key, caseSensitive);
    if Consistent(vb, caseSensitive) && Lookup(vb.child, x.key, caseSensitive).Some? {
      LookupConsistent(vb.child, x.key, caseSensitive);
    }
  }

  method CompareObject(a: Item, b: Item, caseSensitive: bool, ghost ka: Option<Text>, ghost va: Json,
                       ghost kb: Option<Text>, ghost vb: Json) returns (same: bool)
    requires Holds(a, ka, va) && va.Object? && Proper(va) && Holds(b, kb, vb) && vb.Object? && Proper(vb)
    ensures CompareMembers(va.child, vb.child, caseSensitive) ==> same
    ensures Exact(a, b, va, vb, caseSensitive) ==> same == CompareMembers(va.child, vb.child, caseSensitive)
    decreases Size(va) + Size(vb), 0, 0
  {
    hide Holds, HoldAll, Left, Below, Compare, Proper, ProperItems, CompareElements, CompareMembers, SizeOfItems, Size,
         Lookup, Distinct, OwnFields, Separate, Exact, Consistent, ConsistentIn, Nested, Linked, At, MembersLeft;
    var a_element := a.child;
    ghost var i, x := 0, va.child;
    StartWalk(a, ka, va);
    StartWalk(b, kb, vb);
    AllMembersLeft(a, b, va, vb, caseSensitive);
    while a_element != null
      invariant 0 <= i <= |a.children| && a_element == At(a.children, i)
      invariant Left(a, i, x) && MembersLeft(a, b, va, vb, x, caseSensitive)
      decreases |a.children| - i
    {
      Walk(a, i, a_element);
      LeftNext(a, i, x);
      OwnName(a_element, x.key, x.value);
      MemberSteps(a, b, va, vb, x, caseSensitive);
      var b_element, w := GetObjectItem(b, a_element.name, caseSensitive, kb, vb);
      same := false;
      if b_element != null {
        ExactBelow(a, b, va, vb, a_element, b_element, x.value, w, caseSensitive);
        same := CompareItems(a_element, b_element, caseSensitive, x.key, x.value, b_element.name, w);
      }
      NextMember(a, b, va, vb, x, same, caseSensitive);
      if !same {
        return;
      }
      a_element := a_element.next;
      i, x := i + 1, x.next;
    }
    EndWalk(a, i, x, a_element);
    NoMemberLeft(a, b, va, vb, caseSensitive);
    same := true;
  }

  lemma AllMembersLeft(a: Item, b: Item, va: Json, vb: Json, caseSensitive: bool)
    requires va.Object? && vb.Object? && Proper(va)
    ensures MembersLeft(a, b, va, vb, va.child, caseSensitive)
  {
    hide Exact;
  }

  /** A recursive copy compares equal to its source exactly when the tree is consistent. */
  method CompareWithDuplicate(item: Item, caseSensitive: bool, ghost key: Option<Text>, ghost v: Json)
    returns (same: bool)
    requires Holds(item, key, v) && Proper(v)
    ensures same <==> Consistent(v, caseSensitive)
  {
    var newitem := Duplicate(item, true, key, v);
    same := CompareItems(item, newitem, caseSensitive, key, v, key, v);
    JsonCompare.CompareWithCopy(v, caseSensitive);
  }
}
