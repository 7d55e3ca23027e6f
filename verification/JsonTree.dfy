/** JSON items. A container holds its first child, and every child its sibling. */
module JsonTree {
  import opened Bytes
  import opened CText

  const NUMBER_LIMIT := 1_000_000_000_000_000

  /** The numbers that are printed as plain digits. */
  type Num = n: int | -NUMBER_LIMIT < n < NUMBER_LIMIT

  datatype Json =
    | Null
    | False
    | True
    | Number(value: Num)
    | Str(text: Text)
    | Array(child: Items)
    | Object(child: Items)

  /** A chain of siblings, each with the name it has inside an object. */
  datatype Items = Nil | Cons(key: Option<Text>, value: Json, next: Items)

  function Append(a: Items, b: Items): Items {
    match a
    case Nil => b
    case Cons(k, v, next) => Cons(k, v, Append(next, b))
  }

  lemma {:induction false} AppendAssociative(a: Items, b: Items, c: Items)
    ensures Append(Append(a, b), c) == Append(a, Append(b, c))
  {
    match a
    case Nil =>
    case Cons(_, _, next) => AppendAssociative(next, b, c);
  }

  lemma {:induction false} AppendNil(a: Items)
    ensures Append(a, Nil) == a
  {
    match a
    case Nil =>
    case Cons(_, _, next) => AppendNil(next);
  }

  function Max(a: nat, b: nat): nat {
    if a < b then b else a
  }

  /** How many containers are nested in each other. */
  function Depth(j: Json): nat {
    match j
    case Array(child) => 1 + DepthOfItems(child)
    case Object(child) => 1 + DepthOfItems(child)
    case _ => 0
  }

  function DepthOfItems(items: Items): nat {
    match items
    case Nil => 0
    case Cons(_, v, next) => Max(Depth(v), DepthOfItems(next))
  }

  /** No names in arrays, a name on every member of an object. */
  predicate Proper(j: Json) {
    match j
    case Array(child) => ProperItems(child, false)
    case Object(child) => ProperItems(child, true)
    case _ => true
  }

  predicate ProperItems(items: Items, named: bool) {
    match items
    case Nil => true
    case Cons(k, v, next) => k.Some? == named && Proper(v) && ProperItems(next, named)
  }
}
