/** Steps of the JSON parser, for texts put together from parts. */
module JsonReading {
  import opened Bytes
  import opened CText
  import opened JsonSyntax
  import opened JsonTree
  import Decimal

  // White space.

  predicate AllWhite(w: string) {
    forall i :: 0 <= i < |w| ==> w[i] as nat <= 32
  }

  predicate StartsBlack(s: string) {
    s != "" && s[0] as nat > 32
  }

  lemma {:induction false} WhiteSkipped(w: string, s: string)
    requires AllWhite(w)
    ensures SkipWhite(w + s) == SkipWhite(s)
  {
    if w == "" {
      assert w + s == s;
    } else {
      assert (w + s)[0] == w[0] && (w + s)[1..] == w[1..] + s;
      WhiteSkipped(w[1..], s);
    }
  }

  lemma BlackKept(v: string, rest: string)
    requires StartsBlack(v)
    ensures SkipWhite(v + rest) == v + rest && StartsBlack(v + rest)
  {
    assert (v + rest)[0] == v[0];
  }

  // Numbers.

  /** What may follow a number: nothing that could belong to it. */
  predicate Stops(rest: string) {
    rest == "" || !IsNumberChar(rest[0])
  }

  predicate AllNumber(t: string) {
    forall i :: 0 <= i < |t| ==> IsNumberChar(t[i])
  }

  lemma {:induction false} NumberTextOf(t: string, rest: string, max: nat)
    requires AllNumber(t) && |t| <= max && Stops(rest)
    ensures NumberText(t + rest, max) == t
    decreases max, t
  {
    if t == "" {
      assert t + rest == rest;
    } else {
      assert (t + rest)[0] == t[0] && (t + rest)[1..] == t[1..] + rest;
      NumberTextOf(t[1..], rest, max - 1);
      assert [t[0]] + t[1..] == t;
    }
  }

  lemma {:induction false} DigitRunOf(t: string)
    requires Decimal.AllDigits(t)
    ensures DigitRun(t) == t
  {
    if t != "" {
      DigitRunOf(t[1..]);
      assert [t[0]] + t[1..] == t;
    }
  }

  lemma PositiveConverted(d: string, n: nat)
    requires d != "" && Decimal.AllDigits(d) && n == Decimal.ValueOf(d) < NUMBER_LIMIT
    ensures StrToD(d) == Integer(n, |d|)
  {
    DigitRunOf(d);
    assert d[0..] == d && d[|d|..] == "";
  }

  lemma NegativeConverted(t: string, d: string, n: int)
    requires StartsWith(t, '-') && t[1..] == d && t[1 + |d|..] == ""
    requires d != "" && Decimal.AllDigits(d) && 0 < n == Decimal.ValueOf(d) < NUMBER_LIMIT
    ensures StrToD(t) == Integer(0 - n, 1 + |d|)
  {
    DigitRunOf(d);
  }

  lemma IntegerConverted(n: Num)
    ensures StrToD(Decimal.Text(n)) == Integer(n, |Decimal.Text(n)|)
  {
    if n < 0 {
      var t, d := Decimal.Text(n), Decimal.Digits(-n);
      Decimal.DigitsValue(-n);
      assert t[1..] == d && t[1 + |d|..] == "";
      NegativeConverted(t, d, -n);
    } else {
      Decimal.DigitsValue(n);
      PositiveConverted(Decimal.Digits(n), n);
    }
  }

  lemma NumberLength(n: Num)
    ensures |Decimal.Text(n)| <= 63 && AllNumber(Decimal.Text(n))
  {
    var m := if n < 0 then -n else n;
    FifteenDigits();
    Decimal.DigitsLength(m, 15);
  }

  lemma FifteenDigits()
    ensures Decimal.Power10(15) == NUMBER_LIMIT
  {
    assert Decimal.Power10(5) == 100_000;
    assert Decimal.Power10(10) == 10_000_000_000;
  }

  lemma {:induction false} NumberRead(n: Num, rest: string)
    requires Stops(rest)
    ensures ParsedNumber(Decimal.Text(n) + rest) == Done(Number(n), rest)
  {
    var t := Decimal.Text(n);
    NumberLength(n);
    NumberTextOf(t, rest, 63);
    IntegerConverted(n);
    assert (t + rest)[|t|..] == rest;
  }

  lemma {:induction false} NumberTextFront(t: string, rest: string, max: nat)
    requires AllNumber(t) && |t| <= max
    ensures NumberText(t + rest, max) == t + NumberText(rest, max - |t|)
    decreases max, t
  {
    if t == "" {
      assert t + rest == rest && "" + NumberText(rest, max) == NumberText(rest, max);
    } else {
      assert (t + rest)[0] == t[0] && (t + rest)[1..] == t[1..] + rest;
      NumberTextFront(t[1..], rest, max - 1);
      assert [t[0]] + (t[1..] + NumberText(rest, max - |t|)) == t + NumberText(rest, max - |t|);
    }
  }

  lemma {:induction false} DigitRunFront(d: string, tail: string)
    requires Decimal.AllDigits(d) && (tail == "" || !Decimal.IsDigit(tail[0]))
    ensures DigitRun(d + tail) == d
  {
    if d == "" {
      assert d + tail == tail;
    } else {
      assert (d + tail)[0] == d[0] && (d + tail)[1..] == d[1..] + tail;
      DigitRunFront(d[1..], tail);
      assert [d[0]] + d[1..] == d;
    }
  }

  /** What is made of a sign and digits, and of what follows them: with a fraction, an exponent, a value of 10^15 or
      more, or a negative zero it is a number beyond the model, and otherwise that integer, whatever follows. */
  lemma {:induction false} NumberSorted(sign: string, digits: string, rest: string)
    requires (sign == "" || sign == "-") && digits != "" && Decimal.AllDigits(digits) && |sign + digits| < 63
    requires rest == "" || !('0' <= rest[0] <= '9')
    ensures var n: int := Decimal.ValueOf(digits);
      ParsedNumber(sign + digits + rest) ==
        if (rest != "" && (rest[0] == '.' || rest[0] == 'e' || rest[0] == 'E')) || n >= 1_000_000_000_000_000 ||
           (sign == "-" && n == 0)
        then Beyond else Done(Number(if sign == "-" then -n else n), rest)
  {
    hide NumberText, Decimal.ValueOf, DigitRun;
    var t := sign + digits;
    NumberTextFront(t, rest, 63);
    var tail := NumberText(rest, 63 - |t|);
    NumberTextStarts(rest, 63 - |t|);
    DigitRunFront(digits, tail);
    Converted(sign, digits, tail);
    assert (t + rest)[|t|..] == rest;
  }

  lemma NumberTextStarts(s: string, max: nat)
    requires max > 0
    ensures var t := NumberText(s, max); if Stops(s) then t == "" else t != "" && t[0] == s[0]
  {
  }

  /** Whether `tail` makes a number more than the digits in front of it. */
  predicate GoesOn(tail: string) {
    StartsWith(tail, '.') || StartsWith(tail, 'e') || StartsWith(tail, 'E')
  }

  lemma PlainSorted(t: string, digits: string, tail: string)
    requires t == digits + tail && digits != "" && Decimal.AllDigits(digits) && DigitRun(t) == digits
    ensures var n: int := Decimal.ValueOf(digits);
      StrToD(t) == if GoesOn(tail) || n >= NUMBER_LIMIT then Other else Integer(n, |digits|)
  {
    hide DigitRun, Decimal.ValueOf;
    assert t[0] == digits[0] && t[0..] == t && t[|digits|..] == tail;
  }

  lemma SignedSorted(t: string, digits: string, tail: string)
    requires StartsWith(t, '-') && t[1..] == digits + tail && digits != "" && Decimal.AllDigits(digits)
    requires DigitRun(t[1..]) == digits
    ensures var n: int := Decimal.ValueOf(digits);
      StrToD(t) == if GoesOn(tail) || n >= NUMBER_LIMIT || n == 0 then Other else Integer(-n, 1 + |digits|)
  {
    hide DigitRun, Decimal.ValueOf;
    assert t[1 + |digits|..] == tail;
  }

  lemma Converted(sign: string, digits: string, tail: string)
    requires (sign == "" || sign == "-") && digits != "" && Decimal.AllDigits(digits)
    requires DigitRun(digits + tail) == digits
    ensures var n: int := Decimal.ValueOf(digits);
      StrToD(sign + digits + tail) ==
        if GoesOn(tail) || n >= NUMBER_LIMIT || (sign == "-" && n == 0) then Other
        else Integer(if sign == "-" then -n else n, |sign + digits|)
  {
    hide DigitRun, Decimal.ValueOf, StrToD;
    var t := sign + digits + tail;
    if sign == "" {
      assert t == digits + tail;
      PlainSorted(t, digits, tail);
    } else {
      assert t[0] == '-' && t[1..] == digits + tail;
      SignedSorted(t, digits, tail);
    }
  }

  // Strings.

  type Search = string -> Option<nat>

  /** A search that runs over `a` as a whole. */
  predicate Passes(f: Search, a: string, more: string) {
    f(a + more) == Shifted(f(more), |a|)
  }

  predicate IsPlain(c: char) {
    c != '\"' && c != '\\'
  }

  lemma PlainPasses(c: char, more: string)
    requires IsPlain(c)
    ensures Passes(ClosingQuote, [c], more)
  {
    assert ([c] + more)[1..] == more;
  }

  lemma PairPasses(c: char, more: string)
    ensures Passes(ClosingQuote, ['\\', c], more)
  {
    assert (['\\', c] + more)[2..] == more;
  }

  lemma BothPass(f: Search, a: string, b: string, more: string)
    requires Passes(f, a, b + more) && Passes(f, b, more)
    ensures Passes(f, a + b, more)
  {
    assert a + b + more == a + (b + more);
  }

  // Values.

  /** What reading back gives: everything, or nothing when it does not fit the nesting limit. */
  function Back<T>(depth: nat, v: T, rest: string): Read<T> {
    if depth <= NESTING_LIMIT then Done(v, rest) else Failed
  }

  lemma ElementsStep(s: string, depth: nat, v: Json, rest: string)
    requires ParsedValue(SkipWhite(s), depth) == Done(v, rest)
    ensures var u := SkipWhite(rest);
      && (StartsWith(u, ']') ==> ParsedElements(s, depth) == Done(Cons(None, v, Nil), u[1..]))
      && (StartsWith(u, ',') ==> ParsedElements(s, depth) == ConsRead(None, v, ParsedElements(u[1..], depth)))
  {
  }

  lemma MembersStep(s: string, depth: nat, key: Text, behind: string, v: Json, rest: string)
    requires ParsedName(s) == Done(key, behind) && ParsedValue(SkipWhite(behind), depth) == Done(v, rest)
    ensures var u := SkipWhite(rest);
      && (StartsWith(u, '}') ==> ParsedMembers(s, depth) == Done(Cons(Some(key), v, Nil), u[1..]))
      && (StartsWith(u, ',') ==> ParsedMembers(s, depth) == ConsRead(Some(key), v, ParsedMembers(u[1..], depth)))
  {
  }

  lemma ElementsFail(s: string, depth: nat)
    requires ParsedValue(SkipWhite(s), depth) == Failed
    ensures ParsedElements(s, depth) == Failed
  {
  }

  lemma MembersFail(s: string, depth: nat, key: Text, behind: string)
    requires ParsedName(s) == Done(key, behind) && ParsedValue(SkipWhite(behind), depth) == Failed
    ensures ParsedMembers(s, depth) == Failed
  {
  }

  /** The nesting limit refuses one more container. */
  lemma {:induction false} TooDeep(s: string, depth: nat)
    requires (StartsWith(s, '[') || StartsWith(s, '{')) && depth >= NESTING_LIMIT
    ensures ParsedValue(s, depth) == Failed
  {
  }

  lemma EmptyArray(s: string, depth: nat)
    requires StartsWith(s, '[') && depth < NESTING_LIMIT && StartsWith(SkipWhite(s[1..]), ']')
    ensures ParsedValue(s, depth) == Done(Array(Nil), SkipWhite(s[1..])[1..])
  {
  }

  lemma ArrayFrom(s: string, depth: nat, r: Read<Items>)
    requires StartsWith(s, '[') && depth < NESTING_LIMIT && !StartsWith(SkipWhite(s[1..]), ']')
    requires ParsedElements(s[1..], depth + 1) == r
    ensures ParsedValue(s, depth) == AsArray(r)
  {
  }

  lemma EmptyObject(s: string, depth: nat)
    requires StartsWith(s, '{') && depth < NESTING_LIMIT && StartsWith(SkipWhite(s[1..]), '}')
    ensures ParsedValue(s, depth) == Done(Object(Nil), SkipWhite(s[1..])[1..])
  {
  }

  lemma ObjectFrom(s: string, depth: nat, r: Read<Items>)
    requires StartsWith(s, '{') && depth < NESTING_LIMIT && !StartsWith(SkipWhite(s[1..]), '}')
    requires ParsedMembers(s[1..], depth + 1) == r
    ensures ParsedValue(s, depth) == AsObject(r)
  {
  }

  lemma NameFrom(s: string, key: Text, rest: string)
    requires ParsedString(SkipWhite(s)) == Done(key, rest) && StartsWith(SkipWhite(rest), ':')
    ensures ParsedName(s) == Done(key, SkipWhite(rest)[1..])
  {
  }
}
