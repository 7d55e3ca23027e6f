/** Text operations used on HTTP heads: octets, lines and substring search. */
module HttpText {
  import opened Bytes
  import opened CText

  predicate IsOctets(s: string) {
    forall i :: 0 <= i < |s| ==> s[i] as nat < 0x100
  }

  /** The bytes of a text whose characters are octets. */
  function Octets(s: string): (r: seq<byte>)
    requires IsOctets(s)
    ensures |r| == |s|
  {
    seq(|s|, i requires 0 <= i < |s| => ByteOf(s[i] as nat))
  }

  /** The text up to the first `c`, and the rest behind it; the whole text when there is none. */
  function UpTo(s: string, c: char): (r: (string, string))
    ensures |r.0| + |r.1| <= |s| && (s != [] ==> |r.1| < |s|)
  {
    if s == [] then ("", "")
    else if s[0] == c then ("", s[1..])
    else
      var (a, b) := UpTo(s[1..], c);
      ([s[0]] + a, b)
  }

  lemma {:induction false} UpToIs(a: string, c: char, b: string)
    requires Without(a, c)
    ensures UpTo(a + [c] + b, c) == (a, b)
  {
    var s := a + [c] + b;
    if a == [] {
      assert s[1..] == b;
    } else {
      assert s[0] == a[0] && s[1..] == a[1..] + [c] + b;
      UpToIs(a[1..], c, b);
      assert [a[0]] + a[1..] == a;
    }
  }

  /** The lines read one by one until the text is used up. */
  function Lines(s: string): seq<string>
    decreases |s|
  {
    if s == [] then []
    else
      var (line, rest) := UpTo(s, '\n');
      [line] + Lines(rest)
  }

  lemma LinesNext(line: string, rest: string)
    requires Without(line, '\n')
    ensures Lines(line + "\n" + rest) == [line] + Lines(rest)
  {
    UpToIs(line, '\n', rest);
  }

  /** The position of the first occurrence of `pattern`. */
  function Find(s: string, pattern: string): (r: Option<nat>)
    ensures r.Some? ==> r.value + |pattern| <= |s| && s[r.value..r.value + |pattern|] == pattern
  {
    if pattern <= s then Some(0)
    else if s == [] then None
    else match Find(s[1..], pattern)
      case None => None
      case Some(i) => Some(i + 1)
  }

  /** The first two characters of a pattern starting with `x`, `y` are never found inside or at the end of `s`. */
  predicate Avoids(s: string, x: char, y: char) {
    && (forall i :: 0 <= i < |s| - 1 ==> !(s[i] == x && s[i + 1] == y))
    && (s != [] ==> s[|s| - 1] != x)
  }

  lemma AvoidsConcat(a: string, b: string, x: char, y: char)
    requires Avoids(a, x, y) && Avoids(b, x, y)
    ensures Avoids(a + b, x, y)
  {
  }

  lemma NotAPrefix(a: string, b: string, pattern: string)
    requires |pattern| >= 2 && a != [] && Avoids(a, pattern[0], pattern[1])
    ensures !(pattern <= a + b)
  {
    var s := a + b;
    assert s[0] == a[0] && (|a| > 1 ==> s[1] == a[1]);
  }

  /** A pattern is found behind a text that avoids its beginning. */
  lemma {:induction false} FindBehind(a: string, b: string, pattern: string)
    requires |pattern| >= 2 && Avoids(a, pattern[0], pattern[1]) && pattern <= b
    ensures Find(a + b, pattern) == Some(|a|)
  {
    if a == [] {
      assert a + b == b;
    } else {
      assert (a + b)[1..] == a[1..] + b;
      NotAPrefix(a, b, pattern);
      FindBehind(a[1..], b, pattern);
    }
  }
}
