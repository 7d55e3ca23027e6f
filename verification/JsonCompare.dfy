/** Comparison of trees as a function of the trees, and what it decides. */
module JsonCompare {
  import opened Bytes
  import opened CText
  import opened Hex
  import opened JsonTree

  // Names and lookups.

  function Lowered(s: string): (r: string)
    ensures |r| == |s|
  {
    seq(|s|, i requires 0 <= i < |s| => ToLower(s[i]))
  }

  /** What a name stands for in the chosen mode. */
  function Folded(name: string, caseSensitive: bool): string {
    if caseSensitive then name else Lowered(name)
  }

  predicate Matches(name: Text, key: Option<Text>, caseSensitive: bool) {
    key.Some? && Folded(name, caseSensitive) == Folded(key.value, caseSensitive)
  }

  /** The first member with the name. */
  function Lookup(items: Items, name: Option<Text>, caseSensitive: bool): Option<Json> {
    if items == Nil || name == None then None
    else if Matches(name.value, items.key, caseSensitive) then Some(items.value)
    else Lookup(items.next, name, caseSensitive)
  }

  // The comparison.

  function Size(j: Json): nat {
    match j
    case Array(child) => 1 + SizeOfItems(child)
    case Object(child) => 1 + SizeOfItems(child)
    case _ => 1
  }

  function SizeOfItems(items: Items): nat {
    match items
    case Nil => 0
    case Cons(_, v, next) => 1 + Size(v) + SizeOfItems(next)
  }

  lemma {:induction false} LookupSize(items: Items, name: Option<Text>, caseSensitive: bool)
    ensures var v := Lookup(items, name, caseSensitive); v.Some? ==> Size(v.value) < SizeOfItems(items)
  {
    if items != Nil {
      LookupSize(items.next, name, caseSensitive);
    }
  }

  /** Two trees compare equal. Strings are compared exactly in both modes; an object is compared member by member
      against the first namesake, in both directions. */
  predicate Compare(a: Json, b: Json, caseSensitive: bool)
    decreases Size(a) + Size(b), 0
  {
    match (a, b)
    case (Null, Null) => true
    case (False, False) => true
    case (True, True) => true
    case (Number(m), Number(n)) => m == n
    case (Str(s), Str(t)) => s == t
    case (Array(x), Array(y)) => CompareElements(x, y, caseSensitive)
    case (Object(x), Object(y)) => CompareMembers(x, y, caseSensitive) && CompareMembers(y, x, caseSensitive)
    case _ => false
  }

  predicate CompareElements(x: Items, y: Items, caseSensitive: bool)
    decreases SizeOfItems(x) + SizeOfItems(y), 1
  {
    if x == Nil || y == Nil then x == y
    else Compare(x.value, y.value, caseSensitive) && CompareElements(x.next, y.next, caseSensitive)
  }

  /** Every member of `x` compares equal to its first namesake in `y`. */
  predicate CompareMembers(x: Items, y: Items, caseSensitive: bool)
    decreases SizeOfItems(x) + SizeOfItems(y), 1
  {
    x == Nil ||
    (LookupSize(y, x.key, caseSensitive);
     var v := Lookup(y, x.key, caseSensitive);
     v.Some? && Compare(x.value, v.value, caseSensitive) && CompareMembers(x.next, y, caseSensitive))
  }

  // What a tree means: an object is a map from folded names.

  datatype Meaning = Scalar(value: Json) | Sequence(items: seq<Meaning>) | Record(members: map<string, Meaning>)

  function MeaningOf(j: Json, caseSensitive: bool): Meaning {
    match j
    case Array(child) => Sequence(MeaningOfElements(child, caseSensitive))
    case Object(child) => Record(MeaningOfMembers(child, caseSensitive))
    case _ => Scalar(j)
  }

  function MeaningOfElements(items: Items, caseSensitive: bool): seq<Meaning> {
    match items
    case Nil => []
    case Cons(_, v, next) => [MeaningOf(v, caseSensitive)] + MeaningOfElements(next, caseSensitive)
  }

  function MeaningOfMembers(items: Items, caseSensitive: bool): map<string, Meaning> {
    match items
    case Nil => map[]
    case Cons(k, v, next) =>
      if k == None then MeaningOfMembers(next, caseSensitive)
      else MeaningOfMembers(next, caseSensitive)[Folded(k.value, caseSensitive) := MeaningOf(v, caseSensitive)]
  }

  /** In every object of the tree, each member means what the first member of its name means. */
  predicate Consistent(j: Json, caseSensitive: bool) {
    match j
    case Array(child) => ConsistentIn(child, caseSensitive)
    case Object(child) =>
      ConsistentIn(child, caseSensitive) && Agree(child, MeaningOfMembers(child, caseSensitive), caseSensitive)
    case _ => true
  }

  predicate ConsistentIn(items: Items, caseSensitive: bool) {
    match items
    case Nil => true
    case Cons(_, v, next) => Consistent(v, caseSensitive) && ConsistentIn(next, caseSensitive)
  }

  /** Every member means what `m` says of its name. */
  predicate Agree(items: Items, m: map<string, Meaning>, caseSensitive: bool) {
    match items
    case Nil => true
    case Cons(k, v, next) => Agrees(k, v, m, caseSensitive) && Agree(next, m, caseSensitive)
  }

  predicate Agrees(key: Option<Text>, v: Json, m: map<string, Meaning>, caseSensitive: bool) {
    && key.Some? && Folded(key.value, caseSensitive) in m
    && m[Folded(key.value, caseSensitive)] == MeaningOf(v, caseSensitive)
  }

  /** No two members of an object, anywhere in the tree, share a name in the chosen mode. */
  predicate DistinctNames(j: Json, caseSensitive: bool) {
    match j
    case Array(child) => DistinctIn(child, caseSensitive)
    case Object(child) => DistinctIn(child, caseSensitive) && DistinctMembers(child, caseSensitive)
    case _ => true
  }

  predicate DistinctIn(items: Items, caseSensitive: bool) {
    match items
    case Nil => true
    case Cons(_, v, next) => DistinctNames(v, caseSensitive) && DistinctIn(next, caseSensitive)
  }

  predicate DistinctMembers(items: Items, caseSensitive: bool) {
    match items
    case Nil => true
    case Cons(k, _, next) => Lookup(next, k, caseSensitive) == None && DistinctMembers(next, caseSensitive)
  }

  /** A lookup finds the meaning of the name. */
  lemma {:induction false} LookupMeaning(items: Items, name: Text, caseSensitive: bool)
    requires ProperItems(items, true)
    ensures var v, m := Lookup(items, Some(name), caseSensitive), MeaningOfMembers(items, caseSensitive);
      var n := Folded(name, caseSensitive);
      && (v.Some? <==> n in m)
      && (v.Some? ==> m[n] == MeaningOf(v.value, caseSensitive) && Proper(v.value))
  {
    if items != Nil {
      LookupMeaning(items.next, name, caseSensitive);
    }
  }

  lemma {:induction false} LookupConsistent(items: Items, name: Option<Text>, caseSensitive: bool)
    requires ConsistentIn(items, caseSensitive) && Lookup(items, name, caseSensitive).Some?
    ensures Consistent(Lookup(items, name, caseSensitive).value, caseSensitive)
  {
    if !Matches(name.value, items.key, caseSensitive) {
      LookupConsistent(items.next, name, caseSensitive);
    }
  }

  /** Trees with distinct names are consistent. */
  lemma {:induction false} DistinctIsConsistent(j: Json, caseSensitive: bool)
    requires Proper(j) && DistinctNames(j, caseSensitive)
    ensures Consistent(j, caseSensitive)
    decreases j
  {
    match j
    case Array(child) => DistinctInConsistent(child, false, caseSensitive);
    case Object(child) =>
      DistinctInConsistent(child, true, caseSensitive);
      DistinctAgree(child, caseSensitive);
    case _ =>
  }

  lemma {:induction false} DistinctInConsistent(items: Items, named: bool, caseSensitive: bool)
    requires ProperItems(items, named) && DistinctIn(items, caseSensitive)
    ensures ConsistentIn(items, caseSensitive)
    decreases items
  {
    match items
    case Nil =>
    case Cons(_, v, next) =>
      DistinctIsConsistent(v, caseSensitive);
      DistinctInConsistent(next, named, caseSensitive);
  }

  lemma {:induction false} DistinctAgree(items: Items, caseSensitive: bool)
    requires ProperItems(items, true) && DistinctMembers(items, caseSensitive)
    ensures Agree(items, MeaningOfMembers(items, caseSensitive), caseSensitive)
  {
    if items != Nil {
      var m, k := MeaningOfMembers(items.next, caseSensitive), Folded(items.key.value, caseSensitive);
      DistinctAgree(items.next, caseSensitive);
      LookupMeaning(items.next, items.key.value, caseSensitive);
      AgreeMore(items.next, m, k, MeaningOf(items.value, caseSensitive), caseSensitive);
    }
  }

  lemma {:induction false} AgreeMore(items: Items, m: map<string, Meaning>, k: string, v: Meaning, caseSensitive: bool)
    requires Agree(items, m, caseSensitive) && k !in m
    ensures Agree(items, m[k := v], caseSensitive)
  {
    if items != Nil {
      AgreeMore(items.next, m, k, v, caseSensitive);
    }
  }

  predicate Within(m: map<string, Meaning>, n: map<string, Meaning>) {
    forall k :: k in m ==> k in n && m[k] == n[k]
  }

  lemma WithinBoth(m: map<string, Meaning>, n: map<string, Meaning>)
    ensures Within(m, n) && Within(n, m) <==> m == n
  {
    if Within(m, n) && Within(n, m) {
      assert forall k :: k in m <==> k in n;
    }
  }

  /** What agrees with `n` means no more than `n`. */
  lemma {:induction false} AgreeWithin(items: Items, n: map<string, Meaning>, caseSensitive: bool)
    requires Agree(items, n, caseSensitive)
    ensures Within(MeaningOfMembers(items, caseSensitive), n)
  {
    if items != Nil {
      AgreeWithin(items.next, n, caseSensitive);
    }
  }

  /** Two trees compare equal exactly when both are consistent and mean the same. */
  lemma {:induction false} CompareDecides(a: Json, b: Json, caseSensitive: bool)
    requires Proper(a) && Proper(b)
    ensures Compare(a, b, caseSensitive) <==>
      && Consistent(a, caseSensitive) && Consistent(b, caseSensitive)
      && MeaningOf(a, caseSensitive) == MeaningOf(b, caseSensitive)
    decreases Size(a) + Size(b), 0
  {
    match (a, b)
    case (Array(x), Array(y)) => ElementsDecide(x, y, caseSensitive);
    case (Object(x), Object(y)) => ObjectsDecide(x, y, caseSensitive);
    case _ =>
  }

  lemma {:induction false} ObjectsDecide(x: Items, y: Items, caseSensitive: bool)
    requires ProperItems(x, true) && ProperItems(y, true)
    ensures CompareMembers(x, y, caseSensitive) && CompareMembers(y, x, caseSensitive) <==>
      && Consistent(Object(x), caseSensitive) && Consistent(Object(y), caseSensitive)
      && MeaningOfMembers(x, caseSensitive) == MeaningOfMembers(y, caseSensitive)
    decreases SizeOfItems(x) + SizeOfItems(y), 2
  {
    MembersDecide(x, y, caseSensitive);
    MembersDecide(y, x, caseSensitive);
    if CompareMembers(x, y, caseSensitive) && CompareMembers(y, x, caseSensitive) {
      AgreeWithin(x, MeaningOfMembers(y, caseSensitive), caseSensitive);
      AgreeWithin(y, MeaningOfMembers(x, caseSensitive), caseSensitive);
      WithinBoth(MeaningOfMembers(x, caseSensitive), MeaningOfMembers(y, caseSensitive));
    }
  }

  lemma ConsEqual(a: Meaning, x: seq<Meaning>, b: Meaning, y: seq<Meaning>)
    ensures [a] + x == [b] + y <==> a == b && x == y
  {
    assert ([a] + x)[0] == a && ([a] + x)[1..] == x && ([b] + y)[0] == b && ([b] + y)[1..] == y;
  }

  lemma {:induction false} ElementsDecide(x: Items, y: Items, caseSensitive: bool)
    requires ProperItems(x, false) && ProperItems(y, false)
    ensures CompareElements(x, y, caseSensitive) <==>
      && ConsistentIn(x, caseSensitive) && ConsistentIn(y, caseSensitive)
      && MeaningOfElements(x, caseSensitive) == MeaningOfElements(y, caseSensitive)
    decreases SizeOfItems(x) + SizeOfItems(y), 1
  {
    if x != Nil && y != Nil {
      CompareDecides(x.value, y.value, caseSensitive);
      ElementsDecide(x.next, y.next, caseSensitive);
      ConsEqual(MeaningOf(x.value, caseSensitive), MeaningOfElements(x.next, caseSensitive),
        MeaningOf(y.value, caseSensitive), MeaningOfElements(y.next, caseSensitive));
    }
  }

  /** Members that all compare equal to their first namesakes are consistent and agree with those; the converse needs
      consistent namesakes. */
  lemma {:induction false} MembersDecide(x: Items, y: Items, caseSensitive: bool)
    requires ProperItems(x, true) && ProperItems(y, true)
    ensures CompareMembers(x, y, caseSensitive) ==>
      ConsistentIn(x, caseSensitive) && Agree(x, MeaningOfMembers(y, caseSensitive), caseSensitive)
    ensures ConsistentIn(x, caseSensitive) && ConsistentIn(y, caseSensitive) ==>
      Agree(x, MeaningOfMembers(y, caseSensitive), caseSensitive) ==> CompareMembers(x, y, caseSensitive)
    decreases SizeOfItems(x) + SizeOfItems(y), 1
  {
    if x != Nil {
      var v := Lookup(y, x.key, caseSensitive);
      LookupMeaning(y, x.key.value, caseSensitive);
      MembersDecide(x.next, y, caseSensitive);
      if v.Some? {
        LookupSize(y, x.key, caseSensitive);
        CompareDecides(x.value, v.value, caseSensitive);
        if ConsistentIn(y, caseSensitive) {
          LookupConsistent(y, x.key, caseSensitive);
        }
      }
    }
  }

  /** A tree compares equal to a copy of itself exactly when it is consistent. */
  lemma {:induction false} CompareWithCopy(j: Json, caseSensitive: bool)
    requires Proper(j)
    ensures Compare(j, j, caseSensitive) <==> Consistent(j, caseSensitive)
  {
    CompareDecides(j, j, caseSensitive);
  }

  lemma {:induction false} CompareSymmetric(a: Json, b: Json, caseSensitive: bool)
    ensures Compare(a, b, caseSensitive) == Compare(b, a, caseSensitive)
    decreases a
  {
    if a.Array? && b.Array? {
      ElementsSymmetric(a.child, b.child, caseSensitive);
    }
  }

  lemma {:induction false} ElementsSymmetric(x: Items, y: Items, caseSensitive: bool)
    ensures CompareElements(x, y, caseSensitive) == CompareElements(y, x, caseSensitive)
    decreases x
  {
    if x != Nil && y != Nil {
      CompareSymmetric(x.value, y.value, caseSensitive);
      ElementsSymmetric(x.next, y.next, caseSensitive);
    }
  }

  /** Comparing is symmetric on all trees, reflexive exactly on the consistent ones, and transitive. */
  lemma {:induction false} CompareIsEquivalence(a: Json, b: Json, c: Json, caseSensitive: bool)
    requires Proper(a) && Proper(b) && Proper(c)
    ensures Compare(a, a, caseSensitive) <==> Consistent(a, caseSensitive)
    ensures Compare(a, b, caseSensitive) <==> Compare(b, a, caseSensitive)
    ensures Compare(a, b, caseSensitive) && Compare(b, c, caseSensitive) ==> Compare(a, c, caseSensitive)
  {
    CompareWithCopy(a, caseSensitive);
    CompareSymmetric(a, b, caseSensitive);
    CompareDecides(a, b, caseSensitive);
    CompareDecides(b, c, caseSensitive);
    CompareDecides(a, c, caseSensitive);
  }

  // The order of members.

  function Members(items: Items): seq<(Option<Text>, Json)> {
    match items
    case Nil => []
    case Cons(k, v, next) => [(k, v)] + Members(next)
  }

  lemma {:induction false} MemberMeaning(items: Items, m: map<string, Meaning>, i: nat, caseSensitive: bool)
    requires Agree(items, m, caseSensitive) && i < |Members(items)|
    ensures Agrees(Members(items)[i].0, Members(items)[i].1, m, caseSensitive)
  {
    if i > 0 {
      assert Members(items)[i] == Members(items.next)[i - 1];
      MemberMeaning(items.next, m, i - 1, caseSensitive);
    }
  }

  lemma {:induction false} MemberConsistent(items: Items, i: nat, caseSensitive: bool)
    requires ConsistentIn(items, caseSensitive) && i < |Members(items)|
    ensures Consistent(Members(items)[i].1, caseSensitive)
  {
    if i > 0 {
      assert Members(items)[i] == Members(items.next)[i - 1];
      MemberConsistent(items.next, i - 1, caseSensitive);
    }
  }

  lemma {:induction false} NameHasMember(items: Items, name: string, caseSensitive: bool) returns (i: nat)
    requires ProperItems(items, true) && name in MeaningOfMembers(items, caseSensitive)
    ensures i < |Members(items)| && Members(items)[i].0.Some?
    ensures Folded(Members(items)[i].0.value, caseSensitive) == name
    ensures MeaningOfMembers(items, caseSensitive)[name] == MeaningOf(Members(items)[i].1, caseSensitive)
  {
    if Folded(items.key.value, caseSensitive) == name {
      i := 0;
    } else {
      i := NameHasMember(items.next, name, caseSensitive);
      assert Members(items)[i + 1] == Members(items.next)[i];
      i := i + 1;
    }
  }

  /** Members that all occur in a consistent object are consistent and agree with it. */
  lemma {:induction false} MembersAgree(x: Items, y: Items, caseSensitive: bool)
    requires Consistent(Object(y), caseSensitive) && forall m :: m in Members(x) ==> m in Members(y)
    ensures ConsistentIn(x, caseSensitive) && Agree(x, MeaningOfMembers(y, caseSensitive), caseSensitive)
    decreases x
  {
    if x != Nil {
      assert Members(x)[0] in Members(x);
      var j :| 0 <= j < |Members(y)| && Members(y)[j] == Members(x)[0];
      MemberMeaning(y, MeaningOfMembers(y, caseSensitive), j, caseSensitive);
      MemberConsistent(y, j, caseSensitive);
      forall m | m in Members(x.next) ensures m in Members(y) {
        assert m in Members(x);
      }
      MembersAgree(x.next, y, caseSensitive);
    }
  }

  lemma {:induction false} NameHasMeaning(items: Items, i: nat, caseSensitive: bool)
    requires ProperItems(items, true) && i < |Members(items)|
    ensures Members(items)[i].0.Some?
    ensures Folded(Members(items)[i].0.value, caseSensitive) in MeaningOfMembers(items, caseSensitive)
  {
    if i > 0 {
      assert Members(items)[i] == Members(items.next)[i - 1];
      NameHasMeaning(items.next, i - 1, caseSensitive);
    }
  }

  lemma {:induction false} AllAgree(items: Items, m: map<string, Meaning>, caseSensitive: bool)
    requires forall i :: 0 <= i < |Members(items)| ==>
      Agrees(Members(items)[i].0, Members(items)[i].1, m, caseSensitive)
    ensures Agree(items, m, caseSensitive)
  {
    if items != Nil {
      assert Members(items)[0] == (items.key, items.value);
      forall i | 0 <= i < |Members(items.next)|
        ensures Agrees(Members(items.next)[i].0, Members(items.next)[i].1, m, caseSensitive)
      {
        assert Members(items)[i + 1] == Members(items.next)[i];
      }
      AllAgree(items.next, m, caseSensitive);
    }
  }

  /** What agrees with more agrees with its own meaning. */
  lemma {:induction false} AgreeOwn(items: Items, n: map<string, Meaning>, caseSensitive: bool)
    requires ProperItems(items, true) && Agree(items, n, caseSensitive)
    ensures Agree(items, MeaningOfMembers(items, caseSensitive), caseSensitive)
  {
    AgreeWithin(items, n, caseSensitive);
    forall i | 0 <= i < |Members(items)|
      ensures Agrees(Members(items)[i].0, Members(items)[i].1, MeaningOfMembers(items, caseSensitive), caseSensitive)
    {
      NameHasMeaning(items, i, caseSensitive);
      MemberMeaning(items, n, i, caseSensitive);
    }
    AllAgree(items, MeaningOfMembers(items, caseSensitive), caseSensitive);
  }

  /** Objects with the same members in any order compare equal, exactly when they are consistent. */
  lemma {:induction false} OrderDoesNotMatter(x: Items, y: Items, caseSensitive: bool)
    requires Proper(Object(x)) && Proper(Object(y)) && multiset(Members(x)) == multiset(Members(y))
    ensures Compare(Object(x), Object(y), caseSensitive) <==> Consistent(Object(x), caseSensitive)
  {
    forall m ensures m in Members(x) <==> m in Members(y) {
      assert m in Members(x) <==> m in multiset(Members(x));
      assert m in Members(y) <==> m in multiset(Members(y));
    }
    CompareDecides(Object(x), Object(y), caseSensitive);
    if Consistent(Object(x), caseSensitive) {
      SameMembers(x, y, caseSensitive);
    }
  }

  lemma {:induction false} SameMembers(x: Items, y: Items, caseSensitive: bool)
    requires ProperItems(x, true) && ProperItems(y, true) && Consistent(Object(x), caseSensitive)
    requires forall m :: m in Members(x) <==> m in Members(y)
    ensures Consistent(Object(y), caseSensitive)
    ensures MeaningOfMembers(x, caseSensitive) == MeaningOfMembers(y, caseSensitive)
  {
    var m, n := MeaningOfMembers(x, caseSensitive), MeaningOfMembers(y, caseSensitive);
    MembersAgree(y, x, caseSensitive);
    AgreeOwn(y, m, caseSensitive);
    AgreeWithin(y, m, caseSensitive);
    forall k | k in m
      ensures k in n
    {
      var i := NameHasMember(x, k, caseSensitive);
      assert Members(x)[i] in Members(y);
      var j :| 0 <= j < |Members(y)| && Members(y)[j] == Members(x)[i];
      NameHasMeaning(y, j, caseSensitive);
    }
    WithinBoth(m, n);
  }

  /** Two members of one name that differ: the tree does not compare equal to a copy of itself, because the second
      one is compared with the first. */
  lemma {:induction false} NamesakesDiffer(name: Text, caseSensitive: bool)
    ensures var j := Object(Cons(Some(name), Null, Cons(Some(name), True, Nil)));
      Proper(j) && !Consistent(j, caseSensitive) && !Compare(j, j, caseSensitive)
  {
    hide Folded;
    var inner := Cons(Some(name), True, Nil);
    var items := Cons(Some(name), Null, inner);
    assert MeaningOfMembers(items, caseSensitive)[Folded(name, caseSensitive)] == Scalar(Null);
    assert !Agrees(Some(name), True, MeaningOfMembers(items, caseSensitive), caseSensitive);
    assert !Agree(inner, MeaningOfMembers(items, caseSensitive), caseSensitive);
    assert Proper(True) && Proper(Null) && ProperItems(Nil, true);
    assert ProperItems(inner, true);
    assert ProperItems(items, true);
    CompareWithCopy(Object(items), caseSensitive);
  }

  // The two modes.

  /** The same character, or the two forms of one of the 26 letters. */
  predicate SameLetter(a: char, b: char) {
    a == b || ('A' <= a <= 'Z' && b as nat == a as nat + 32) || ('A' <= b <= 'Z' && a as nat == b as nat + 32)
  }

  /** Names are equal, or, when case does not count, equal letter by letter. */
  predicate NamesAgree(a: Text, b: Text, caseSensitive: bool) {
    if caseSensitive then a == b else |a| == |b| && forall i :: 0 <= i < |a| ==> SameLetter(a[i], b[i])
  }

  lemma {:induction false} FoldedAgree(a: Text, b: Text, caseSensitive: bool)
    ensures Folded(a, caseSensitive) == Folded(b, caseSensitive) <==> NamesAgree(a, b, caseSensitive)
  {
    if !caseSensitive {
      var x, y := Lowered(a), Lowered(b);
      if x == y {
        forall i | 0 <= i < |a| ensures SameLetter(a[i], b[i]) {
          assert x[i] == y[i];
        }
      }
      if NamesAgree(a, b, false) {
        forall i | 0 <= i < |x| ensures x[i] == y[i] {
          assert SameLetter(a[i], b[i]);
        }
      }
    }
  }

  /** The member found is the first one whose name agrees; there is none exactly when no name agrees. */
  lemma {:induction false} LookupIsFirst(items: Items, name: Text, caseSensitive: bool) returns (k: nat)
    requires ProperItems(items, true)
    ensures var ms, v := Members(items), Lookup(items, Some(name), caseSensitive);
      && k <= |ms| && (v == None <==> k == |ms|)
      && (forall i :: 0 <= i < k ==> ms[i].0.Some? && !NamesAgree(name, ms[i].0.value, caseSensitive))
      && (k < |ms| ==> ms[k].0.Some? && NamesAgree(name, ms[k].0.value, caseSensitive) && v == Some(ms[k].1))
  {
    hide NamesAgree, Folded;
    k := 0;
    if items != Nil {
      FoldedAgree(name, items.key.value, caseSensitive);
      assert Members(items)[0] == (items.key, items.value);
      if !Matches(name, items.key, caseSensitive) {
        k := LookupIsFirst(items.next, name, caseSensitive);
        assert forall i :: 0 <= i < |Members(items.next)| ==> Members(items)[i + 1] == Members(items.next)[i];
        k := k + 1;
      }
    }
  }

  /** No two of the names agree. */
  predicate AllDiffer(ms: seq<(Option<Text>, Json)>, caseSensitive: bool) {
    forall i, j :: 0 <= i < j < |ms| && ms[i].0.Some? && ms[j].0.Some? ==>
      !NamesAgree(ms[i].0.value, ms[j].0.value, caseSensitive)
  }

  lemma FirstDiffers(name: Text, v: Json, rest: seq<(Option<Text>, Json)>, caseSensitive: bool)
    ensures AllDiffer([(Some(name), v)] + rest, caseSensitive) <==>
      && AllDiffer(rest, caseSensitive)
      && forall i :: 0 <= i < |rest| && rest[i].0.Some? ==> !NamesAgree(name, rest[i].0.value, caseSensitive)
  {
    hide NamesAgree;
    var ms := [(Some(name), v)] + rest;
    assert forall i :: 0 <= i < |rest| ==> ms[i + 1] == rest[i];
    assert forall i :: 0 < i < |ms| ==> ms[i] == rest[i - 1];
    assert ms[0].0 == Some(name);
  }

  /** The members of an object are distinct exactly when no two of their names agree. */
  lemma {:induction false} DistinctMeans(items: Items, caseSensitive: bool)
    requires ProperItems(items, true)
    ensures DistinctMembers(items, caseSensitive) <==> AllDiffer(Members(items), caseSensitive)
  {
    if items != Nil {
      hide NamesAgree, Folded, AllDiffer;
      DistinctMeans(items.next, caseSensitive);
      FirstDiffers(items.key.value, items.value, Members(items.next), caseSensitive);
      var k := LookupIsFirst(items.next, items.key.value, caseSensitive);
    }
  }

  lemma {:induction false} NamesMean(items: Items, name: Text)
    requires ProperItems(items, true)
    ensures name in MeaningOfMembers(items, true) <==>
      exists i :: 0 <= i < |Members(items)| && Members(items)[i].0 == Some(name)
  {
    if name in MeaningOfMembers(items, true) {
      var i := NameHasMember(items, name, true);
    }
    if i :| 0 <= i < |Members(items)| && Members(items)[i].0 == Some(name) {
      NameHasMeaning(items, i, true);
    }
  }

  /** When case counts, objects that compare equal have exactly the same names. */
  lemma {:induction false} SameNames(x: Items, y: Items, name: Text)
    requires Proper(Object(x)) && Proper(Object(y)) && Compare(Object(x), Object(y), true)
    ensures (exists i :: 0 <= i < |Members(x)| && Members(x)[i].0 == Some(name)) <==>
            (exists i :: 0 <= i < |Members(y)| && Members(y)[i].0 == Some(name))
  {
    CompareDecides(Object(x), Object(y), true);
    NamesMean(x, name);
    NamesMean(y, name);
  }

  /** The same tree with letters of names in another case. */
  predicate Recased(a: Json, b: Json) {
    match (a, b)
    case (Array(x), Array(y)) => RecasedItems(x, y)
    case (Object(x), Object(y)) => RecasedItems(x, y)
    case _ => a == b
  }

  predicate RecasedItems(x: Items, y: Items) {
    if x == Nil || y == Nil then x == y
    else
      && (if x.key.Some? && y.key.Some? then NamesAgree(x.key.value, y.key.value, false) else x.key == y.key)
      && Recased(x.value, y.value) && RecasedItems(x.next, y.next)
  }

  lemma {:induction false} RecasedMeans(a: Json, b: Json)
    requires Recased(a, b)
    ensures MeaningOf(a, false) == MeaningOf(b, false) && (Consistent(a, false) <==> Consistent(b, false))
    decreases a
  {
    match (a, b)
    case (Array(x), Array(y)) => RecasedItemsMean(x, y, map[]);
    case (Object(x), Object(y)) => RecasedItemsMean(x, y, MeaningOfMembers(x, false));
    case _ =>
  }

  lemma {:induction false} RecasedItemsMean(x: Items, y: Items, m: map<string, Meaning>)
    requires RecasedItems(x, y)
    ensures MeaningOfElements(x, false) == MeaningOfElements(y, false)
    ensures MeaningOfMembers(x, false) == MeaningOfMembers(y, false)
    ensures ConsistentIn(x, false) <==> ConsistentIn(y, false)
    ensures Agree(x, m, false) <==> Agree(y, m, false)
    decreases x
  {
    if x != Nil {
      RecasedMeans(x.value, y.value);
      RecasedItemsMean(x.next, y.next, m);
      if x.key.Some? {
        FoldedAgree(x.key.value, y.key.value, false);
      }
    }
  }

  /** When case does not count, the case of letters in names changes no comparison. */
  lemma {:induction false} CaseDoesNotCount(a: Json, b: Json, c: Json)
    requires Proper(a) && Proper(b) && Proper(c) && Recased(a, b)
    ensures Compare(a, c, false) <==> Compare(b, c, false)
  {
    RecasedMeans(a, b);
    CompareDecides(a, c, false);
    CompareDecides(b, c, false);
  }

  /** Names that differ in case only are told apart exactly when case counts. */
  lemma {:induction false} CaseCounts(a: Text, b: Text, v: Json)
    requires Proper(v) && Consistent(v, true) && Consistent(v, false) && NamesAgree(a, b, false) && a != b
    ensures var x, y := Object(Cons(Some(a), v, Nil)), Object(Cons(Some(b), v, Nil));
      Compare(x, y, false) && !Compare(x, y, true)
  {
    hide NamesAgree, Folded, Proper, Consistent;
    FoldedAgree(a, b, false);
    FoldedAgree(a, b, true);
    SingleMatches(a, b);
    CompareWithCopy(v, false);
    var i, j := Cons(Some(a), v, Nil), Cons(Some(b), v, Nil);
    assert Lookup(j, Some(a), false) == Some(v) && Lookup(i, Some(b), false) == Some(v);
    assert CompareMembers(Nil, j, false) && CompareMembers(Nil, i, false);
    assert CompareMembers(i, j, false) && CompareMembers(j, i, false);
    assert Lookup(j, Some(a), true) == None;
  }

  lemma SingleMatches(a: Text, b: Text)
    ensures NamesAgree(a, b, true) <==> a == b
    ensures NamesAgree(a, b, false) <==> NamesAgree(b, a, false)
  {
  }

  // Names as the code compares them.

  /** Walks both names as long as they agree; a terminator agrees only with a terminator. */
  method CaseInsensitiveEqual(a: Text, b: Text) returns (same: bool)
    ensures same <==> Lowered(a) == Lowered(b)
  {
    var i := 0;
    while i < |a| && i < |b| && ToLower(a[i]) == ToLower(b[i])
      invariant i <= |a| && i <= |b| && Lowered(a)[..i] == Lowered(b)[..i]
      decreases |a| - i
    {
      i := i + 1;
    }
    same := i == |a| && i == |b|;
    if same {
      assert Lowered(a)[..i] == Lowered(a) && Lowered(b)[..i] == Lowered(b);
    } else if i < |a| && i < |b| {
      assert Lowered(a)[i] != Lowered(b)[i];
    }
  }
}
