/** The fixed-size storage of the logger. */
module FixedBuffers {
  class FixedBuffer {
    const data: array<char>
    var cur: nat

    ghost predicate Valid()
      reads this`cur
    {
      cur <= data.Length
    }

    ghost function Contents(): string
      reads this`cur, data
      requires Valid()
    {
      data[..cur]
    }

    constructor (size: nat)
      ensures Valid() && Contents() == "" && data.Length == size && fresh(data)
    {
      data := new char[size];
      cur := 0;
    }

    function Length(): nat
      reads this`cur
    {
      cur
    }

    function Avail(): int
      reads this`cur
    {
      data.Length - cur
    }

    /** Keeps `buf` if more than its length is free; otherwise nothing changes. */
    method Append(buf: string)
      requires Valid()
      modifies this`cur, data
      ensures Valid()
      ensures Contents() == if old(Avail()) > |buf| then old(Contents()) + buf else old(Contents())
    {
      if Avail() > |buf| {
        for i := 0 to |buf|
          invariant cur == old(cur) && data[..cur + i] == old(data[..cur]) + buf[..i]
        {
          data[cur + i] := buf[i];
        }
        assert buf[..|buf|] == buf;
        cur := cur + |buf|;
      }
    }

    method Reset()
      modifies this`cur
      ensures Valid() && Contents() == ""
    {
      cur := 0;
    }
  }

  // Rows of buffers.

  /** No two buffers of a row are the same or share their storage. */
  predicate Apart(s: seq<FixedBuffer>) {
    forall i, j :: 0 <= i < j < |s| ==> s[i] != s[j] && s[i].data != s[j].data
  }

  /** The buffers of a row have the same size, and they and their storage belong to `repr`. */
  ghost predicate Owned(s: seq<FixedBuffer>, size: nat, repr: set<object>) {
    forall i :: 0 <= i < |s| ==> s[i].data.Length == size && s[i] in repr && s[i].data in repr
  }

  /** Rows that are apart as a whole do not meet. */
  lemma ApartSplit(a: seq<FixedBuffer>, b: seq<FixedBuffer>)
    requires Apart(a + b)
    ensures Apart(a) && Apart(b)
    ensures forall x, y :: x in a && y in b ==> x != y && x.data != y.data
  {
    var s := a + b;
    forall i, j | 0 <= i < j < |a| ensures a[i] != a[j] && a[i].data != a[j].data {
      assert s[i] == a[i] && s[j] == a[j];
    }
    forall i, j | 0 <= i < j < |b| ensures b[i] != b[j] && b[i].data != b[j].data {
      assert s[|a| + i] == b[i] && s[|a| + j] == b[j];
    }
    forall x, y | x in a && y in b ensures x != y && x.data != y.data {
      var i :| 0 <= i < |a| && a[i] == x;
      var j :| 0 <= j < |b| && b[j] == y;
      assert s[i] == x && s[|a| + j] == y;
    }
  }

  lemma ApartJoin(a: seq<FixedBuffer>, b: seq<FixedBuffer>)
    requires Apart(a) && Apart(b)
    requires forall x, y :: x in a && y in b ==> x != y && x.data != y.data
    ensures Apart(a + b)
  {
    var s := a + b;
    forall i, j | 0 <= i < j < |s| ensures s[i] != s[j] && s[i].data != s[j].data {
      if i < |a| && j >= |a| {
        assert s[i] in a && s[j] in b;
      }
    }
  }

  /** Being apart does not depend on the order. */
  lemma ApartReordered(s: seq<FixedBuffer>, t: seq<FixedBuffer>)
    requires Apart(s) && multiset(t) <= multiset(s)
    ensures Apart(t)
  {
    forall i, j | 0 <= i < j < |t| ensures t[i] != t[j] && t[i].data != t[j].data {
      TwoIn(t, i, j);
      assert multiset{t[i], t[j]} <= multiset(s);
      OnceIn(s, t[i]);
      assert t[i] in multiset(s) && t[j] in multiset(s);
      var a :| 0 <= a < |s| && s[a] == t[i];
      var b :| 0 <= b < |s| && s[b] == t[j];
      assert a < b || b < a;
    }
  }

  lemma TwoIn(t: seq<FixedBuffer>, i: nat, j: nat)
    requires i < j < |t|
    ensures multiset{t[i], t[j]} <= multiset(t)
  {
    assert t == t[..i] + [t[i]] + t[i + 1..j] + [t[j]] + t[j + 1..];
  }

  lemma {:induction false} OnceIn(s: seq<FixedBuffer>, x: FixedBuffer)
    requires Apart(s)
    ensures multiset(s)[x] <= 1
  {
    if s != [] {
      var rest := s[1..];
      assert s == [s[0]] + rest;
      OnceIn(rest, x);
      forall k | 0 <= k < |rest| ensures rest[k] != s[0] {
        assert rest[k] == s[k + 1];
      }
      assert s[0] !in multiset(rest);
    }
  }
}
