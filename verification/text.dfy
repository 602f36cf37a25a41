/**
 * Character classes, Python string helpers and decimal rendering, as the
 * dialogue code uses them: `str.strip`, `str.lower`, substring tests,
 * `int(...)` on digit runs, `str(n)` and the `{n:,}` thousands format.
 */
module Text {

  /** Python's `str.isspace()`, which is also what `\s` and `strip()` use on `str`. */
  predicate IsSpace(c: char) {
    || c == ' '
    || ('\U{9}' <= c <= '\U{D}')
    || ('\U{1C}' <= c <= '\U{1F}')
    || c == '\U{85}' || c == '\U{A0}' || c == '\U{1680}'
    || ('\U{2000}' <= c <= '\U{200A}')
    || c == '\U{2028}' || c == '\U{2029}' || c == '\U{202F}' || c == '\U{205F}' || c == '\U{3000}'
  }

  /** An ASCII decimal digit (`\d` restricted to ASCII). */
  predicate IsDigit(c: char) {
    '0' <= c <= '9'
  }

  predicate IsAsciiLetter(c: char) {
    ('a' <= c <= 'z') || ('A' <= c <= 'Z')
  }

  /** A regex word character (`\w` restricted to ASCII). */
  predicate IsWordChar(c: char) {
    IsAsciiLetter(c) || IsDigit(c) || c == '_'
  }

  /** `\b` at position `i` of `s`: exactly one side of `i` is a word character. */
  predicate Boundary(s: string, i: nat)
    requires i <= |s|
  {
    (i > 0 && IsWordChar(s[i - 1])) != (i < |s| && IsWordChar(s[i]))
  }

  function LowerChar(c: char): (r: char)
    ensures 'A' <= c <= 'Z' ==> 'a' <= r <= 'z' && r as int == c as int + 32
    ensures !('A' <= c <= 'Z') ==> r == c
  {
    if 'A' <= c <= 'Z' then (c as int + 32) as char else c
  }

  /** `str.lower()` on ASCII letters; every other character is kept. */
  function Lower(s: string): (r: string)
    ensures |r| == |s|
    ensures forall i :: 0 <= i < |s| ==> r[i] == LowerChar(s[i])
  {
    seq(|s|, i requires 0 <= i < |s| => LowerChar(s[i]))
  }

  /** `s` contains no ASCII upper-case letter. */
  predicate IsLowerCase(s: string) {
    forall i :: 0 <= i < |s| ==> !('A' <= s[i] <= 'Z')
  }

  lemma LowerIsLowerCase(s: string)
    ensures IsLowerCase(Lower(s))
    ensures IsLowerCase(s) ==> Lower(s) == s
  {
  }

  /** `t` occurs in `s` starting at position `i`. */
  predicate OccursAt(s: string, t: string, i: nat) {
    i + |t| <= |s| && s[i..i + |t|] == t
  }

  /** Where the parts of `a + b + c + d` sit. */
  lemma ConcatPlaces(a: string, b: string, c: string, d: string)
    ensures OccursAt(a + b + c + d, a, 0)
    ensures OccursAt(a + b + c + d, b, |a|)
    ensures OccursAt(a + b + c + d, c, |a + b|)
    ensures OccursAt(a + b + c + d, d, |a + b + c|)
  {
    var s := a + b + c + d;
    assert s[..|a|] == a;
    assert s[|a|..|a| + |b|] == b;
    assert s[|a + b|..|a + b| + |c|] == c;
    assert s[|a + b + c|..] == d;
  }

  /** Where the parts of `a + t + b + t + c` sit: `t` follows `a` and follows `b`. */
  lemma TwicePlaces(a: string, t: string, b: string, c: string)
    ensures OccursAt(a + t + b + t + c, a, 0)
    ensures OccursAt(a + t + b + t + c, t, |a|)
    ensures OccursAt(a + t + b + t + c, b, |a| + |t|)
    ensures OccursAt(a + t + b + t + c, t, |a| + |t| + |b|)
  {
    var s := a + t + b + t + c;
    assert s[..|a|] == a;
    assert s[|a|..|a| + |t|] == t;
    assert s[|a| + |t|..|a| + |t| + |b|] == b;
    assert s[|a| + |t| + |b|..|a| + |t| + |b| + |t|] == t;
  }

  /** Where `t + u` occurs, `t` occurs, and `u` right after it. */
  lemma OccursSplit(s: string, t: string, u: string, i: nat)
    requires OccursAt(s, t + u, i)
    ensures OccursAt(s, t, i) && OccursAt(s, u, i + |t|)
  {
    assert s[i..i + |t|] == s[i..i + |t + u|][..|t|];
    assert s[i + |t|..i + |t| + |u|] == s[i..i + |t + u|][|t|..];
  }

  /** Python's `t in s` on strings. */
  predicate Contains(s: string, t: string) {
    exists i: nat | i <= |s| :: OccursAt(s, t, i)
  }

  /** Drops leading whitespace: the result is a suffix of `s` that does not start with a space. */
  function StripStart(s: string): (r: string)
    ensures |r| <= |s| && r == s[|s| - |r|..]
    ensures r == [] || !IsSpace(r[0])
    ensures forall k :: 0 <= k < |s| - |r| ==> IsSpace(s[k])
  {
    if |s| > 0 && IsSpace(s[0]) then StripStart(s[1..]) else s
  }

  /** Drops trailing whitespace: the result is a prefix of `s` that does not end with a space. */
  function StripEnd(s: string): (r: string)
    ensures |r| <= |s| && r == s[..|r|]
    ensures r == [] || !IsSpace(r[|r| - 1])
    ensures forall k :: |r| <= k < |s| ==> IsSpace(s[k])
  {
    if |s| > 0 && IsSpace(s[|s| - 1]) then StripEnd(s[..|s| - 1]) else s
  }

  /** Where `str.strip()` starts its slice: the number of leading spaces. */
  function StripOffset(s: string): (i: nat)
    ensures i <= |s|
  {
    |s| - |StripStart(s)|
  }

  /** `str.strip()`: a slice of `s` with no space at either end, all cut characters being spaces. */
  function Strip(s: string): (r: string)
    ensures r == [] || (!IsSpace(r[0]) && !IsSpace(r[|r| - 1]))
    ensures StripOffset(s) + |r| <= |s| && r == s[StripOffset(s)..StripOffset(s) + |r|]
  {
    var a := StripStart(s);
    var r := StripEnd(a);
    SliceOfSuffix(s, |s| - |a|, |r|);
    r
  }

  /** A prefix of a suffix is a slice. */
  lemma SliceOfSuffix(s: string, i: nat, n: nat)
    requires i + n <= |s|
    ensures s[i..][..n] == s[i..i + n]
  {
  }

  /** What `str.strip()` cuts off is whitespace, at both ends. */
  lemma StripCutsSpaces(s: string)
    ensures forall k :: 0 <= k < StripOffset(s) ==> IsSpace(s[k])
    ensures forall k :: StripOffset(s) + |Strip(s)| <= k < |s| ==> IsSpace(s[k])
  {
    var a := StripStart(s);
    var r := StripEnd(a);
    forall k | StripOffset(s) + |r| <= k < |s|
      ensures IsSpace(s[k])
    {
      assert s[k] == a[k - StripOffset(s)];
    }
  }

  lemma StripIdempotent(s: string)
    ensures Strip(Strip(s)) == Strip(s)
  {
    var r := Strip(s);
    if r != [] {
      assert StripStart(r) == r;
      assert StripEnd(r) == r;
    }
  }

  predicate AllDigits(s: string) {
    forall i :: 0 <= i < |s| ==> IsDigit(s[i])
  }

  function DigitValue(c: char): (d: nat)
    requires IsDigit(c)
    ensures d < 10
  {
    c as int - '0' as int
  }

  function DigitChar(d: nat): (c: char)
    requires d < 10
    ensures IsDigit(c) && DigitValue(c) == d
  {
    ('0' as int + d) as char
  }

  /** Python's `int(s)` on a non-empty run of ASCII digits (leading zeros allowed). */
  function ParseDigits(s: string): nat
    requires AllDigits(s)
  {
    if |s| == 0 then 0 else ParseDigits(s[..|s| - 1]) * 10 + DigitValue(s[|s| - 1])
  }

  /** Decimal rendering of a natural number, most significant digit first, no leading zeros. */
  function Decimal(n: nat): (r: string)
    ensures |r| >= 1 && AllDigits(r)
    ensures |r| > 1 ==> r[0] != '0'
  {
    if n < 10 then [DigitChar(n)] else Decimal(n / 10) + [DigitChar(n % 10)]
  }

  /** Reading back the decimal rendering of `n` gives `n`. */
  lemma {:induction false} ParseDecimal(n: nat)
    ensures ParseDigits(Decimal(n)) == n
  {
    if n >= 10 {
      var d := Decimal(n);
      assert d[..|d| - 1] == Decimal(n / 10);
      ParseDecimal(n / 10);
    }
  }

  /** Python's `str(n)` for an integer. */
  function IntToString(n: int): (r: string)
    ensures n >= 0 ==> r == Decimal(n)
    ensures n < 0 ==> |r| >= 2 && r[0] == '-' && r[1..] == Decimal(-n)
  {
    if n < 0 then "-" + Decimal(-n) else Decimal(n)
  }

  /** Three digits with leading zeros, for a group after a thousands separator. */
  function Pad3(m: nat): (r: string)
    requires m < 1000
    ensures |r| == 3 && AllDigits(r)
  {
    [DigitChar(m / 100), DigitChar(m / 10 % 10), DigitChar(m % 10)]
  }

  /** `{n:,}` for a natural number: groups of three digits separated by commas. */
  function Grouped(n: nat): string
  {
    if n < 1000 then Decimal(n) else Grouped(n / 1000) + "," + Pad3(n % 1000)
  }

  /** `{n:,}` for any integer: a minus sign precedes the grouped magnitude. */
  function Thousands(n: int): string
  {
    if n < 0 then "-" + Grouped(-n) else Grouped(n)
  }

  /** Python's `s.replace(c, "")` for a single character `c`. */
  function RemoveChar(s: string, c: char): (r: string)
    ensures forall i :: 0 <= i < |r| ==> r[i] != c
    ensures |r| <= |s|
  {
    if |s| == 0 then [] else RemoveChar(s[..|s| - 1], c) + (if s[|s| - 1] == c then [] else [s[|s| - 1]])
  }

  lemma {:induction false} RemoveCharConcat(a: string, b: string, c: char)
    ensures RemoveChar(a + b, c) == RemoveChar(a, c) + RemoveChar(b, c)
    decreases |b|
  {
    if |b| > 0 {
      assert (a + b)[..|a + b| - 1] == a + b[..|b| - 1];
      RemoveCharConcat(a, b[..|b| - 1], c);
    } else {
      assert a + b == a;
    }
  }

  /** Every character left by `RemoveChar` comes from the input. */
  lemma {:induction false} RemoveCharSubset(s: string, c: char, k: nat)
    requires k < |RemoveChar(s, c)|
    ensures exists j :: 0 <= j < |s| && s[j] == RemoveChar(s, c)[k]
  {
    var r := RemoveChar(s[..|s| - 1], c);
    if k < |r| {
      RemoveCharSubset(s[..|s| - 1], c, k);
      var j :| 0 <= j < |s| - 1 && s[..|s| - 1][j] == r[k];
      assert s[j] == r[k];
    } else {
      assert RemoveChar(s, c)[k] == s[|s| - 1];
    }
  }

  lemma {:induction false} RemoveCharAbsent(s: string, c: char)
    requires forall i :: 0 <= i < |s| ==> s[i] != c
    ensures RemoveChar(s, c) == s
  {
    if |s| > 0 {
      RemoveCharAbsent(s[..|s| - 1], c);
    }
  }

  /** The decimal rendering of `n` splits into the rendering of `n / 1000` and three padded digits. */
  lemma DecimalSplit3(n: nat)
    requires n >= 1000
    ensures Decimal(n) == Decimal(n / 1000) + Pad3(n % 1000)
  {
    var q, m := n / 1000, n % 1000;
    var m1, m2 := m / 10, m / 10 / 10;
    DivTen(m, m1, m % 10);
    DivTen(m1, m2, m1 % 10);
    DivHundred(m, m2, m1 % 10 * 10 + m % 10);
    DivTen(n, 100 * q + m1, m % 10);
    DivTen(100 * q + m1, 10 * q + m2, m1 % 10);
    DivTen(10 * q + m2, q, m2);
    var a, b := 10 * q + m2, 100 * q + m1;
    assert Decimal(a) == Decimal(q) + [DigitChar(m2)];
    assert Decimal(b) == Decimal(a) + [DigitChar(m1 % 10)];
    assert Decimal(n) == Decimal(b) + [DigitChar(m % 10)];
    assert Pad3(m) == [DigitChar(m2), DigitChar(m1 % 10), DigitChar(m % 10)];
  }

  /** Division by ten, from a witness of quotient and remainder. */
  lemma DivTen(a: nat, q: nat, r: nat)
    requires a == 10 * q + r && r < 10
    ensures a / 10 == q && a % 10 == r
  {
  }

  lemma DivHundred(a: nat, q: nat, r: nat)
    requires a == 100 * q + r && r < 100
    ensures a / 100 == q
  {
  }

  /** One step of the grouping: the separators go, the last group of three digits stays. */
  lemma GroupedStep(n: nat)
    requires n >= 1000
    ensures RemoveChar(Grouped(n), ',') == RemoveChar(Grouped(n / 1000), ',') + Pad3(n % 1000)
  {
    var head, tail := Grouped(n / 1000), Pad3(n % 1000);
    assert Grouped(n) == (head + ",") + tail;
    RemoveCharConcat(head + ",", tail, ',');
    RemoveCharConcat(head, ",", ',');
    RemoveCharAbsent(tail, ',');
    assert RemoveChar(",", ',') == [];
  }

  /** Removing the thousands separators from `{n:,}` leaves the plain decimal rendering of `n`. */
  lemma {:induction false} GroupedRoundTrip(n: nat)
    ensures RemoveChar(Grouped(n), ',') == Decimal(n)
  {
    if n < 1000 {
      RemoveCharAbsent(Decimal(n), ',');
    } else {
      GroupedStep(n);
      GroupedRoundTrip(n / 1000);
      DecimalSplit3(n);
    }
  }

  /** The thousands format never loses the value: with commas removed it reads back as `n`. */
  lemma ThousandsReadsBack(n: nat)
    ensures AllDigits(RemoveChar(Thousands(n), ','))
    ensures ParseDigits(RemoveChar(Thousands(n), ',')) == n
  {
    GroupedRoundTrip(n);
    ParseDecimal(n);
  }

  /** Python's `sep.join(parts)`. */
  function Join(parts: seq<string>, sep: string): (r: string)
    ensures |parts| == 1 ==> r == parts[0]
  {
    if |parts| == 0 then "" else if |parts| == 1 then parts[0] else parts[0] + sep + Join(parts[1..], sep)
  }

  /** Joining three parts puts the separator between each neighbouring pair. */
  lemma JoinThree(parts: seq<string>, sep: string)
    requires |parts| == 3
    ensures Join(parts, sep) == parts[0] + sep + parts[1] + sep + parts[2]
  {
    assert parts[1..][1..] == [parts[2]];
  }
}
