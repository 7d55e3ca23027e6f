/** Zero-terminated texts. */
module CText {
  predicate Without(s: string, c: char) {
    forall i :: 0 <= i < |s| ==> s[i] != c
  }

  /** What a zero-terminated string can hold. */
  type Text = s: string | Without(s, '\0') witness ""

  /** A zero-terminated string ends at its first NUL. */
  function UpToNul(s: string): (r: Text)
    ensures |r| <= |s|
  {
    if s == [] || s[0] == '\0' then [] else [s[0]] + UpToNul(s[1..])
  }

  lemma {:induction false} UpToNulIsPrefix(s: string)
    ensures UpToNul(s) <= s
  {
    if s != [] && s[0] != '\0' {
      UpToNulIsPrefix(s[1..]);
    }
  }

  /** A NUL in the first part hides the second. */
  lemma {:induction false} UpToNulConcat(a: string, b: string)
    ensures UpToNul(a + b) == if UpToNul(a) == a then a + UpToNul(b) else UpToNul(a)
    ensures UpToNul(a) == a <==> Without(a, '\0')
  {
    UpToNulIsPrefix(a);
    if a == [] {
      assert a + b == b;
    } else {
      assert (a + b)[1..] == a[1..] + b;
      if a[0] != '\0' {
        UpToNulConcat(a[1..], b);
        assert a == [a[0]] + a[1..];
      }
    }
  }

  lemma {:induction false} UpToNulSame(s: Text)
    ensures UpToNul(s) == s
  {
    if s != [] {
      UpToNulSame(s[1..]);
    }
  }

  lemma {:induction false} UpToNulIs(text: Text, all: string)
    requires |text| < |all| && all[..|text|] == text && all[|text|] == '\0'
    ensures UpToNul(all) == text
  {
    if text != [] {
      UpToNulIs(text[1..], all[1..]);
    }
  }
}
