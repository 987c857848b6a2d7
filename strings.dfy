/** Strings as the report engine uses them: JavaScript's default string order,
    `startsWith`, `split`/`join` on one separator character, and decimal digits. */
module Strings {

  /** `a < b` on JavaScript strings: character by character, a proper prefix first. */
  predicate Less(a: string, b: string)
    decreases |a|
  {
    if a == [] then b != []
    else if b == [] then false
    else if a[0] != b[0] then a[0] < b[0]
    else Less(a[1..], b[1..])
  }

  predicate LessEq(a: string, b: string) {
    Less(a, b) || a == b
  }

  lemma {:induction false} LessIrreflexive(a: string)
    ensures !Less(a, a)
  {
    if a != [] {
      LessIrreflexive(a[1..]);
    }
  }

  lemma {:induction false} LessTransitive(a: string, b: string, c: string)
    requires Less(a, b) && Less(b, c)
    ensures Less(a, c)
    decreases |a|
  {
    if a != [] && a[0] == b[0] && b[0] == c[0] {
      LessTransitive(a[1..], b[1..], c[1..]);
    }
  }

  /** Two different strings are always ordered one way or the other. */
  lemma {:induction false} LessTotal(a: string, b: string)
    requires a != b
    ensures Less(a, b) || Less(b, a)
    decreases |a|
  {
    if a != [] && b != [] && a[0] == b[0] {
      assert a == [a[0]] + a[1..] && b == [b[0]] + b[1..];
      LessTotal(a[1..], b[1..]);
    }
  }

  lemma LessAsymmetric(a: string, b: string)
    requires Less(a, b)
    ensures !Less(b, a)
  {
    if Less(b, a) {
      LessTransitive(a, b, a);
      LessIrreflexive(a);
    }
  }

  lemma LessEqTransitive(a: string, b: string, c: string)
    requires LessEq(a, b) && LessEq(b, c)
    ensures LessEq(a, c)
  {
    if Less(a, b) && Less(b, c) {
      LessTransitive(a, b, c);
    }
  }

  /** Comparing two strings of one length decides the order of anything appended to them. */
  lemma {:induction false} LessAppend(p: string, q: string, x: string, y: string)
    requires |p| == |q| && Less(p, q)
    ensures Less(p + x, q + y)
    decreases |p|
  {
    assert p != [] && q != [];
    assert (p + x)[0] == p[0] && (q + y)[0] == q[0];
    if p[0] == q[0] {
      assert (p + x)[1..] == p[1..] + x && (q + y)[1..] == q[1..] + y;
      LessAppend(p[1..], q[1..], x, y);
    }
  }

  /** A common prefix does not change the order. */
  lemma {:induction false} LessCommonPrefix(p: string, x: string, y: string)
    ensures Less(p + x, p + y) <==> Less(x, y)
    decreases |p|
  {
    if p == [] {
      assert p + x == x && p + y == y;
    } else {
      assert (p + x)[1..] == p[1..] + x && (p + y)[1..] == p[1..] + y;
      LessCommonPrefix(p[1..], x, y);
    }
  }

  /** Two different strings of one length decide the order, whatever follows them. */
  lemma LessAppendIff(p: string, q: string, x: string, y: string)
    requires |p| == |q| && p != q
    ensures Less(p + x, q + y) <==> Less(p, q)
  {
    LessTotal(p, q);
    if Less(p, q) {
      LessAppend(p, q, x, y);
    } else {
      LessAppend(q, p, y, x);
      LessAsymmetric(q + y, p + x);
    }
  }

  /** `s.startsWith(prefix)` */
  predicate StartsWith(s: string, prefix: string) {
    |prefix| <= |s| && s[..|prefix|] == prefix
  }

  // ---------------------------------------------------------------------------
  // split and join on one separator character

  /** `parts.join(sep)` */
  function Join(parts: seq<string>, sep: char): string
    requires |parts| >= 1
  {
    if |parts| == 1 then parts[0] else parts[0] + [sep] + Join(parts[1..], sep)
  }

  /** `s.split(sep)`: the pieces between separators; the empty string gives one empty piece. */
  function Split(s: string, sep: char): (parts: seq<string>)
    ensures |parts| >= 1
    ensures forall i :: 0 <= i < |parts| ==> sep !in parts[i]
    ensures Join(parts, sep) == s
  {
    if s == [] then [""]
    else
      var rest := Split(s[1..], sep);
      if s[0] == sep then
        assert ([""] + rest)[1..] == rest;
        [""] + rest
      else
        var parts := [[s[0]] + rest[0]] + rest[1..];
        assert parts[1..] == rest[1..];
        assert |rest| > 1 ==> Join(rest, sep) == rest[0] + [sep] + Join(rest[1..], sep);
        parts
  }

  lemma {:induction false} SplitPrefix(p: string, t: string, sep: char)
    requires sep !in p
    ensures Split(p + t, sep) == [p + Split(t, sep)[0]] + Split(t, sep)[1..]
    decreases |p|
  {
    if p != [] {
      assert (p + t)[1..] == p[1..] + t;
      SplitPrefix(p[1..], t, sep);
      assert [p[0]] + (p[1..] + Split(t, sep)[0]) == p + Split(t, sep)[0];
    } else {
      var parts := Split(t, sep);
      assert p + t == t && p + parts[0] == parts[0];
      assert [parts[0]] + parts[1..] == parts;
    }
  }

  /** Splitting what was joined gives the parts back, as long as no part holds the separator. */
  lemma {:induction false} SplitJoin(parts: seq<string>, sep: char)
    requires |parts| >= 1
    requires forall i :: 0 <= i < |parts| ==> sep !in parts[i]
    ensures Split(Join(parts, sep), sep) == parts
    decreases |parts|
  {
    if |parts| == 1 {
      SplitPrefix(parts[0], "", sep);
      assert parts[0] + "" == parts[0];
    } else {
      var tail := Join(parts[1..], sep);
      SplitJoin(parts[1..], sep);
      assert parts[0] + [sep] + tail == parts[0] + ([sep] + tail);
      SplitPrefix(parts[0], [sep] + tail, sep);
      assert ([sep] + tail)[1..] == tail;
      assert Split([sep] + tail, sep) == [""] + parts[1..];
      assert parts[0] + "" == parts[0];
      assert parts == [parts[0]] + parts[1..];
    }
  }

  // ---------------------------------------------------------------------------
  // decimal digits

  predicate IsDigit(c: char) {
    '0' <= c <= '9'
  }

  predicate AllDigits(s: string) {
    forall i :: 0 <= i < |s| ==> IsDigit(s[i])
  }

  function DigitChar(d: int): (c: char)
    requires 0 <= d <= 9
    ensures IsDigit(c)
  {
    (48 + d) as char
  }

  function Pow10(w: nat): (p: nat)
    ensures p >= 1
  {
    if w == 0 then 1 else 10 * Pow10(w - 1)
  }

  /** The value of a string of decimal digits. */
  function DecimalValue(s: string): nat
    requires AllDigits(s)
  {
    if s == [] then 0 else DecimalValue(s[..|s| - 1]) * 10 + (s[|s| - 1] as int - 48)
  }

  /** `n` written with exactly `width` digits, zero-padded on the left (`padStart(width, "0")`
      for an `n` below 10^width). */
  function Digits(n: nat, width: nat): (s: string)
    ensures |s| == width && AllDigits(s)
  {
    if width == 0 then [] else Digits(n / 10, width - 1) + [DigitChar(n % 10)]
  }

  /** `String(n)` for a natural number: its digits without leading zeros. */
  function DecimalText(n: nat): (s: string)
    ensures |s| >= 1 && AllDigits(s)
  {
    if n < 10 then [DigitChar(n)] else DecimalText(n / 10) + [DigitChar(n % 10)]
  }

  lemma {:induction false} DigitsRoundTrip(n: nat, width: nat)
    requires n < Pow10(width)
    ensures DecimalValue(Digits(n, width)) == n
  {
    if width > 0 {
      DigitsRoundTrip(n / 10, width - 1);
      var s := Digits(n, width);
      assert s[..|s| - 1] == Digits(n / 10, width - 1);
    }
  }

  lemma {:induction false} DecimalTextRoundTrip(n: nat)
    ensures DecimalValue(DecimalText(n)) == n
  {
    var s := DecimalText(n);
    if n >= 10 {
      DecimalTextRoundTrip(n / 10);
      assert s[..|s| - 1] == DecimalText(n / 10);
    } else {
      assert s[..0] == [];
    }
  }

  /** Fixed-width digit strings sort like the numbers they spell. */
  lemma {:induction false} DigitsOrder(a: nat, b: nat, width: nat)
    requires a < b < Pow10(width)
    ensures Less(Digits(a, width), Digits(b, width))
  {
    var pa, pb := Digits(a / 10, width - 1), Digits(b / 10, width - 1);
    if a / 10 < b / 10 {
      DigitsOrder(a / 10, b / 10, width - 1);
      LessAppend(pa, pb, [DigitChar(a % 10)], [DigitChar(b % 10)]);
    } else {
      assert a % 10 < b % 10;
      assert Less([DigitChar(a % 10)], [DigitChar(b % 10)]);
      LessCommonPrefix(pa, [DigitChar(a % 10)], [DigitChar(b % 10)]);
    }
  }

  /** A digit string without a leading zero, or "0" itself. */
  predicate Canonical(k: string) {
    k != [] && AllDigits(k) && (k == "0" || k[0] != '0')
  }

  /** `String(n)` never starts with a zero unless it is "0". */
  lemma {:induction false} DecimalTextCanonical(n: nat)
    ensures Canonical(DecimalText(n))
    ensures n == 0 <==> DecimalText(n) == "0"
  {
    if n >= 10 {
      DecimalTextCanonical(n / 10);
      var s := DecimalText(n);
      assert s[0] == DecimalText(n / 10)[0];
    }
  }

  /** A canonical digit string is what `String` writes for its value. */
  lemma {:induction false} CanonicalIsDecimalText(k: string)
    requires Canonical(k)
    ensures DecimalText(DecimalValue(k)) == k
    decreases |k|
  {
    var n := DecimalValue(k);
    var c := k[|k| - 1];
    if |k| == 1 {
      assert k[..|k| - 1] == [];
      assert DecimalValue(k[..|k| - 1]) == 0;
    } else {
      var init := k[..|k| - 1];
      assert init[0] == k[0];
      assert Canonical(init) by {
        assert forall i :: 0 <= i < |init| ==> init[i] == k[i];
        assert init != "0";
      }
      CanonicalIsDecimalText(init);
      CanonicalPositive(init);
      assert n / 10 == DecimalValue(init) && n % 10 == c as int - 48;
      assert k == init + [c];
    }
  }

  /** A canonical digit string other than "0" has a positive value. */
  lemma {:induction false} CanonicalPositive(k: string)
    requires Canonical(k) && k != "0"
    ensures DecimalValue(k) >= 1
    decreases |k|
  {
    if |k| > 1 {
      var init := k[..|k| - 1];
      assert init[0] == k[0];
      assert Canonical(init) by {
        assert forall i :: 0 <= i < |init| ==> init[i] == k[i];
        assert init != "0";
      }
      CanonicalPositive(init);
    } else {
      assert k[..0] == [];
      assert k[0] != '0';
    }
  }
}
