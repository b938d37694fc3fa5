/** The few JavaScript primitives the planner leans on, restricted to the
    values it actually produces: integer-valued numbers (or NaN), decimal
    printing, `Number(...)`, `String.prototype.trim`, `split` and `Math.round`
    of a quotient. */
module Js {

  /** A JavaScript number as the planner uses it: an integer, or NaN. */
  datatype Num = Fin(v: int) | NaN

  function Add(a: Num, b: Num): Num {
    if a.Fin? && b.Fin? then Fin(a.v + b.v) else NaN
  }

  function Sub(a: Num, b: Num): Num {
    if a.Fin? && b.Fin? then Fin(a.v - b.v) else NaN
  }

  function Mul(a: Num, b: Num): Num {
    if a.Fin? && b.Fin? then Fin(a.v * b.v) else NaN
  }

  /** `x || fallback` on a number: 0 and NaN are the falsy numbers. */
  function OrElse(x: Num, fallback: int): (r: int)
    ensures x.Fin? && x.v != 0 ==> r == x.v
    ensures !(x.Fin? && x.v != 0) ==> r == fallback
  {
    if x.Fin? && x.v != 0 then x.v else fallback
  }

  /** `s || fallback` on a string: only the empty string is falsy. */
  function OrElseText(s: string, fallback: string): (r: string)
    ensures r != [] || fallback == []
    ensures r == s || r == fallback
    ensures s != [] ==> r == s
    ensures s == [] ==> r == fallback
  {
    if s != [] then s else fallback
  }

  function Max(a: int, b: int): (r: int)
    ensures r >= a && r >= b && (r == a || r == b)
  {
    if a >= b then a else b
  }

  function Min(a: int, b: int): (r: int)
    ensures r <= a && r <= b && (r == a || r == b)
  {
    if a <= b then a else b
  }

  /** JavaScript's `a % b` for a positive divisor: the remainder takes the
      sign of the dividend (truncating division), unlike Dafny's `%`. */
  function Rem(a: int, b: int): (r: int)
    requires b > 0
    ensures a >= 0 ==> 0 <= r < b
    ensures a < 0 ==> -b < r <= 0
    ensures a == b * Quot(a, b) + r
  {
    if a >= 0 then a % b
    else
      var q := (-a) / b;
      assert -a == b * q + (-a) % b;
      assert b * Quot(a, b) == -(b * q);
      -((-a) % b)
  }

  /** JavaScript's `Math.trunc(a / b)` for a positive divisor. */
  function Quot(a: int, b: int): int
    requires b > 0
  {
    if a >= 0 then a / b else -((-a) / b)
  }

  /** `Math.round(a / b)` for a positive divisor: the nearest integer, with
      halves rounded up. */
  function RoundDiv(a: int, b: int): (r: int)
    requires b > 0
    ensures 2 * b * r <= 2 * a + b < 2 * b * r + 2 * b
  {
    (2 * a + b) / (2 * b)
  }

  /** Rounding is exact on multiples. */
  lemma RoundDivExact(k: int, b: int)
    requires b > 0
    ensures RoundDiv(k * b, b) == k
  {
    RoundDivUnique(k * b, b, k);
  }

  /** The bracket in RoundDiv's contract pins the result down. */
  lemma RoundDivUnique(a: int, b: int, r: int)
    requires b > 0
    requires 2 * b * r <= 2 * a + b < 2 * b * r + 2 * b
    ensures RoundDiv(a, b) == r
  {
    DivUnique(2 * a + b, 2 * b, r);
  }

  /** Floor division is determined by its bracket. */
  lemma DivUnique(n: int, d: int, q: int)
    requires d > 0
    requires d * q <= n < d * q + d
    ensures n / d == q
  {
    var q' := n / d;
    assert d * q' <= n < d * q' + d;
    if q' < q {
      MulMono(d, q' + 1, q);
    } else if q' > q {
      MulMono(d, q + 1, q');
    }
  }

  /** A multiple of `d` divides back exactly. */
  lemma MultipleOf(i: int, d: int)
    requires d > 0
    ensures (i * d) / d == i && (i * d) % d == 0
  {
    DivUnique(i * d, d, i);
  }

  lemma MulMono(d: int, x: int, y: int)
    requires d > 0 && x <= y
    ensures d * x <= d * y
  {
    assert d * y - d * x == d * (y - x);
  }

  /** Rounding a quotient that lies between two integers stays between
      them. */
  lemma RoundDivRange(a: int, b: int, lo: int, hi: int)
    requires b > 0 && b * lo <= a <= b * hi
    ensures lo <= RoundDiv(a, b) <= hi
  {
    var r := RoundDiv(a, b);
    if r > hi {
      MulMono(2 * b, hi + 1, r);
    } else if r < lo {
      MulMono(2 * b, r + 1, lo);
    }
  }

  /** Shifting the dividend by whole multiples shifts the rounded quotient. */
  lemma RoundDivShift(a: int, n: int, b: int)
    requires b > 0
    ensures RoundDiv(a + n * b, b) == RoundDiv(a, b) + n
  {
    var r := RoundDiv(a, b);
    assert 2 * b * (r + n) == 2 * b * r + 2 * b * n;
    assert 2 * (a + n * b) == 2 * a + 2 * b * n;
    RoundDivUnique(a + n * b, b, r + n);
  }

  // ---------- decimal digits ----------

  predicate IsDigit(c: char) {
    '0' <= c <= '9'
  }

  predicate AllDigits(s: string) {
    forall i | 0 <= i < |s| :: IsDigit(s[i])
  }

  function DigitChar(d: nat): (c: char)
    requires d < 10
    ensures IsDigit(c) && (c as int) - ('0' as int) == d
  {
    (('0' as int) + d) as char
  }

  /** The value of a string of decimal digits (leading zeros allowed). */
  function DigitsValue(s: string): nat
    requires AllDigits(s)
  {
    if s == [] then 0 else DigitsValue(s[..|s| - 1]) * 10 + ((s[|s| - 1] as int) - ('0' as int))
  }

  /** `String(n)` for a non-negative integer: its shortest decimal text. */
  function Decimal(n: nat): string {
    if n < 10 then [DigitChar(n)] else Decimal(n / 10) + [DigitChar(n % 10)]
  }

  /** The text of `n` is a non-empty run of digits worth `n`, with no
      leading zero unless it is "0" itself. */
  lemma {:induction false} DecimalFacts(n: nat)
    ensures var s := Decimal(n);
            && 1 <= |s| && AllDigits(s)
            && DigitsValue(s) == n
            && (|s| == 1 || s[0] != '0')
  {
    if n >= 10 {
      DecimalFacts(n / 10);
      var front := Decimal(n / 10);
      var s := front + [DigitChar(n % 10)];
      assert s[..|s| - 1] == front;
      assert s[0] == front[0];
    }
  }

  /** Leading zeros do not change the value of a digit string. */
  lemma {:induction false} LeadingZero(s: string)
    requires AllDigits(s)
    ensures AllDigits("0" + s) && DigitsValue("0" + s) == DigitsValue(s)
  {
    var t := "0" + s;
    if s != [] {
      assert t[..|t| - 1] == "0" + s[..|s| - 1];
      LeadingZero(s[..|s| - 1]);
    }
  }

  /** `String(i)` for an integer (the planner never reaches the exponent
      notation JavaScript uses from 1e21 on). */
  function IntToString(i: int): string {
    if i < 0 then "-" + Decimal(-i) else Decimal(i)
  }

  /** `s.padStart(2, "0")`. */
  function PadStart2(s: string): string {
    if |s| >= 2 then s else if |s| == 1 then "0" + s else "00"
  }

  /** Padding keeps a text of two or more characters and otherwise fills
      it up to two characters with leading zeros. */
  lemma PadStart2Facts(s: string)
    ensures var r := PadStart2(s);
            && |r| >= 2
            && (|s| >= 2 ==> r == s)
            && (|s| < 2 ==> r[2 - |s|..] == s && forall i | 0 <= i < 2 - |s| :: r[i] == '0')
  {
  }

  // ---------- whitespace ----------

  /** The characters `String.prototype.trim` removes: the ECMAScript
      WhiteSpace and LineTerminator code points. */
  predicate IsSpace(c: char) {
    c == ' ' || c == '\t' || c == '\n' || c == '\r' || c == '\U{000B}' || c == '\U{000C}'
    || c == '\U{00A0}' || c == '\U{1680}' || ('\U{2000}' <= c <= '\U{200A}')
    || c == '\U{2028}' || c == '\U{2029}' || c == '\U{202F}' || c == '\U{205F}'
    || c == '\U{3000}' || c == '\U{FEFF}'
  }

  function TrimStart(s: string): string {
    if s != [] && IsSpace(s[0]) then TrimStart(s[1..]) else s
  }

  /** Trimming the front drops a whitespace prefix and stops at the first
      other character. */
  lemma {:induction false} TrimStartFacts(s: string)
    ensures |TrimStart(s)| <= |s| && TrimStart(s) == s[|s| - |TrimStart(s)|..]
    ensures TrimStart(s) == [] || !IsSpace(TrimStart(s)[0])
    ensures forall i | 0 <= i < |s| - |TrimStart(s)| :: IsSpace(s[i])
  {
    if s != [] && IsSpace(s[0]) {
      var t := s[1..];
      TrimStartFacts(t);
      var r := TrimStart(t);
      assert TrimStart(s) == r;
      assert t[|t| - |r|..] == s[|s| - |r|..];
      forall i | 0 <= i < |s| - |r|
        ensures IsSpace(s[i])
      {
        if i > 0 {
          assert s[i] == t[i - 1];
        }
      }
    }
  }

  function TrimEnd(s: string): string {
    if s != [] && IsSpace(s[|s| - 1]) then TrimEnd(s[..|s| - 1]) else s
  }

  /** Trimming the back drops a whitespace suffix and stops at the last
      other character. */
  lemma {:induction false} TrimEndFacts(s: string)
    ensures |TrimEnd(s)| <= |s| && TrimEnd(s) == s[..|TrimEnd(s)|]
    ensures TrimEnd(s) == [] || !IsSpace(TrimEnd(s)[|TrimEnd(s)| - 1])
    ensures forall i | |TrimEnd(s)| <= i < |s| :: IsSpace(s[i])
  {
    if s != [] && IsSpace(s[|s| - 1]) {
      var t := s[..|s| - 1];
      TrimEndFacts(t);
      var r := TrimEnd(t);
      assert TrimEnd(s) == r;
      assert t[..|r|] == s[..|r|];
      forall i | |r| <= i < |s|
        ensures IsSpace(s[i])
      {
        if i < |s| - 1 {
          assert s[i] == t[i];
        }
      }
    }
  }

  /** `s.trim()`. */
  function Trim(s: string): string {
    TrimEnd(TrimStart(s))
  }

  /** The trim of `s` neither starts nor ends with whitespace. */
  lemma TrimEdges(s: string)
    ensures Trim(s) == [] || (!IsSpace(Trim(s)[0]) && !IsSpace(Trim(s)[|Trim(s)| - 1]))
  {
    var t := TrimStart(s);
    var r := TrimEnd(t);
    assert Trim(s) == r;
    TrimStartFacts(s);
    TrimEndFacts(t);
    assert r != [] ==> r[0] == t[0];
  }

  /** The trim of `s` is the infix of `s` left after dropping only
      whitespace at both ends. */
  lemma TrimInfix(s: string)
    ensures TrimmedAt(s, |s| - |TrimStart(s)|, Trim(s))
  {
    var t := TrimStart(s);
    var r := TrimEnd(t);
    assert Trim(s) == r;
    TrimStartFacts(s);
    TrimEndFacts(t);
    var i := |s| - |t|;
    assert r == s[i..i + |r|] by {
      assert r == t[..|r|] && t == s[i..];
    }
    forall k | i + |r| <= k < |s|
      ensures IsSpace(s[k])
    {
      assert s[k] == t[k - i];
    }
  }

  /** `r` sits at offset `i` of `s` with only whitespace around it. */
  predicate TrimmedAt(s: string, i: int, r: string) {
    && 0 <= i <= |s| - |r|
    && r == s[i..i + |r|]
    && (forall k | 0 <= k < i :: IsSpace(s[k]))
    && (forall k | i + |r| <= k < |s| :: IsSpace(s[k]))
  }

  /** A string that starts and ends with a non-space character is its own trim. */
  lemma TrimNoop(s: string)
    requires s == [] || (!IsSpace(s[0]) && !IsSpace(s[|s| - 1]))
    ensures Trim(s) == s
  {
  }

  // ---------- Number(text) ----------

  /** `Number(s)` restricted to integers: the trimmed text is empty (0) or an
      optionally signed run of decimal digits; anything else reads as NaN. */
  function Number(s: string): Num {
    var t := Trim(s);
    if t == [] then Fin(0)
    else if AllDigits(t) then Fin(DigitsValue(t))
    else if |t| >= 2 && (t[0] == '-' || t[0] == '+') && AllDigits(t[1..]) then
      var n: int := DigitsValue(t[1..]);
      (if t[0] == '-' then Fin(-n) else Fin(n))
    else NaN
  }

  /** Printing an integer and reading it back is the identity, also after the
      zero padding `padStart(2, "0")` adds. */
  lemma NumberOfPadded(i: int)
    ensures Number(PadStart2(IntToString(i))) == Fin(i)
  {
    var s := IntToString(i);
    var p := PadStart2(s);
    DecimalFacts(if i < 0 then -i else i);
    PadStart2Facts(s);
    if i >= 0 {
      if |s| == 1 {
        LeadingZero(s);
      }
      NumberOfDigits(p);
    } else {
      var d := Decimal(-i);
      assert s == "-" + d && |s| >= 2;
      assert p[1..] == d;
      NumberOfNegative(p);
    }
  }

  /** A run of digits reads as its value. */
  lemma NumberOfDigits(p: string)
    requires |p| >= 1 && AllDigits(p)
    ensures Number(p) == Fin(DigitsValue(p))
  {
    assert IsDigit(p[0]) && IsDigit(p[|p| - 1]);
    TrimNoop(p);
  }

  /** A minus sign followed by a run of digits reads as the negated value. */
  lemma NumberOfNegative(p: string)
    requires |p| >= 2 && p[0] == '-' && AllDigits(p[1..])
    ensures Number(p) == Fin(-(DigitsValue(p[1..]) as int))
  {
    assert IsDigit(p[|p| - 1]) by { assert p[|p| - 1] == p[1..][|p| - 2]; }
    TrimNoop(p);
    assert !IsDigit(p[0]);
  }

  // ---------- split ----------

  /** `s.split(sep)` for a one-character separator. */
  function Split(s: string, sep: char): (parts: seq<string>)
    ensures |parts| >= 1
  {
    if s == [] then [[]]
    else if s[0] == sep then [[]] + Split(s[1..], sep)
    else
      var rest := Split(s[1..], sep);
      [[s[0]] + rest[0]] + rest[1..]
  }

  /** `parts.join(sep)`. */
  function Join(parts: seq<string>, sep: char): string
    requires |parts| >= 1
  {
    if |parts| == 1 then parts[0] else parts[0] + [sep] + Join(parts[1..], sep)
  }

  /** Joining the pieces of a split gives back the original text. */
  lemma {:induction false} JoinSplit(s: string, sep: char)
    ensures Join(Split(s, sep), sep) == s
  {
    if s == [] {
    } else if s[0] == sep {
      JoinSplit(s[1..], sep);
      assert Split(s, sep)[1..] == Split(s[1..], sep);
    } else {
      JoinSplit(s[1..], sep);
      var rest := Split(s[1..], sep);
      var parts := [[s[0]] + rest[0]] + rest[1..];
      if |rest| == 1 {
        assert Join(parts, sep) == [s[0]] + rest[0];
      } else {
        assert parts[1..] == rest[1..];
        assert Join(rest, sep) == rest[0] + [sep] + Join(rest[1..], sep);
      }
    }
  }

  lemma {:induction false} SplitNoSep(s: string, sep: char)
    requires sep !in s
    ensures Split(s, sep) == [s]
  {
    if s != [] {
      assert s[0] != sep && sep !in s[1..];
      SplitNoSep(s[1..], sep);
      assert [s[0]] + s[1..] == s;
    }
  }

  /** Two separator-free pieces around one separator split into exactly those pieces. */
  lemma {:induction false} SplitPair(a: string, b: string, sep: char)
    requires sep !in a && sep !in b
    ensures Split(a + [sep] + b, sep) == [a, b]
  {
    var s := a + [sep] + b;
    if a == [] {
      assert s[1..] == b;
      SplitNoSep(b, sep);
    } else {
      assert s[1..] == a[1..] + [sep] + b;
      SplitPair(a[1..], b, sep);
      assert [a[0]] + a[1..] == a;
    }
  }
}
