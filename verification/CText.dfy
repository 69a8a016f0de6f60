/** Text as the C and C++ library calls of the program see it: characters, case
    folding, decimal numerals, and the scanning that atoi, strtol and stoi share.
    A C string is a seq<char> without '\0'. */
module CText {

  /** The C string at the front of a sequence of characters: all before the first '\0'. */
  function UpToNul(s: seq<char>): (r: seq<char>)
    ensures '\0' !in r
    ensures r <= s
    ensures |r| < |s| ==> s[|r|] == '\0'
    ensures '\0' !in s ==> r == s
  {
    if s == [] || s[0] == '\0' then [] else [s[0]] + UpToNul(s[1..])
  }

  /** t is s up to its first '\0'. */
  ghost predicate IsTextOf(t: seq<char>, s: seq<char>) {
    '\0' !in t && t <= s && (|t| < |s| ==> s[|t|] == '\0')
  }

  const INT_MAX: int := 0x7FFF_FFFF
  const INT_MIN: int := -0x8000_0000

  /** The int that the low 32 bits of a number denote. */
  function AsInt32(v: int): (r: int)
    ensures INT_MIN <= r <= INT_MAX
    ensures INT_MIN <= v <= INT_MAX ==> r == v
    ensures (r - v) % 0x1_0000_0000 == 0
  {
    var w := v % 0x1_0000_0000;
    if w <= INT_MAX then w else w - 0x1_0000_0000
  }

  function ToLower(c: char): (r: char)
    ensures !('A' <= r <= 'Z')
  {
    if 'A' <= c <= 'Z' then (c as int + 32) as char else c
  }

  function Lower(s: seq<char>): (r: seq<char>)
    ensures |r| == |s|
    ensures forall i :: 0 <= i < |s| ==> r[i] == ToLower(s[i])
  {
    seq(|s|, i requires 0 <= i < |s| => ToLower(s[i]))
  }

  lemma LowerInPieces(a: seq<char>, b: seq<char>)
    ensures Lower(a + b) == Lower(a) + Lower(b)
  {
  }

  /** strcasecmp(a, b) == 0 */
  predicate EqualIgnoringCase(a: seq<char>, b: seq<char>) {
    Lower(a) == Lower(b)
  }

  predicate IsDigit(c: char) {
    '0' <= c <= '9'
  }

  predicate AllDigits(s: seq<char>) {
    forall i :: 0 <= i < |s| ==> IsDigit(s[i])
  }

  function DigitValue(c: char): (d: nat)
    requires IsDigit(c)
    ensures d < 10
  {
    c as int - '0' as int
  }

  function DigitChar(d: nat): (c: char)
    requires d < 10
    ensures IsDigit(c) && DigitValue(c) == d
  {
    ('0' as int + d) as char
  }

  /** The number a run of digits denotes. */
  function Value(s: seq<char>): nat
    requires AllDigits(s)
  {
    if s == [] then 0 else 10 * Value(s[..|s| - 1]) + DigitValue(s[|s| - 1])
  }

  /** What "%d" and "%u" print for a number that is not negative. */
  function Decimal(n: nat): (s: seq<char>)
    ensures |s| >= 1 && AllDigits(s)
    ensures n > 0 ==> s[0] != '0'
  {
    if n < 10 then [DigitChar(n)] else Decimal(n / 10) + [DigitChar(n % 10)]
  }

  /** What "%d" prints. */
  function IntText(d: int): seq<char> {
    if d < 0 then "-" + Decimal(-d) else Decimal(d)
  }

  lemma {:induction false} ValueOfDecimal(n: nat)
    ensures Value(Decimal(n)) == n
  {
    if n >= 10 {
      ValueOfDecimal(n / 10);
      var s := Decimal(n);
      assert s[..|s| - 1] == Decimal(n / 10);
    }
  }

  lemma DecimalInjective(m: nat, n: nat)
    requires Decimal(m) == Decimal(n)
    ensures m == n
  {
    ValueOfDecimal(m);
    ValueOfDecimal(n);
  }

  function Pow10(k: nat): (p: nat)
    ensures p >= 1
  {
    if k == 0 then 1 else 10 * Pow10(k - 1)
  }

  /** A numeral has at most k digits exactly when the number is below 10^k. */
  lemma {:induction false} DecimalLength(n: nat, k: nat)
    requires k >= 1
    ensures |Decimal(n)| <= k <==> n < Pow10(k)
  {
    if n >= 10 && k > 1 {
      DecimalLength(n / 10, k - 1);
    } else if k > 1 {
      assert Pow10(k) == 10 * Pow10(k - 1);
    } else {
      assert Pow10(1) == 10 * Pow10(0);
    }
  }

  predicate IsSpace(c: char) {
    c == ' ' || ('\t' <= c <= '\r')
  }

  function SpaceRun(s: seq<char>): (n: nat)
    ensures n <= |s|
    ensures forall i :: 0 <= i < n ==> IsSpace(s[i])
    ensures n < |s| ==> !IsSpace(s[n])
  {
    if s == [] || !IsSpace(s[0]) then 0 else 1 + SpaceRun(s[1..])
  }

  function DigitRun(s: seq<char>): (n: nat)
    ensures n <= |s|
    ensures AllDigits(s[..n])
    ensures n < |s| ==> !IsDigit(s[n])
  {
    if s == [] || !IsDigit(s[0]) then 0
    else
      var m := DigitRun(s[1..]);
      assert s[..1 + m] == [s[0]] + s[1..][..m];
      1 + m
  }

  lemma {:induction false} DigitRunOf(a: seq<char>, b: seq<char>)
    requires AllDigits(a)
    requires b != [] ==> !IsDigit(b[0])
    ensures DigitRun(a + b) == |a|
  {
    if a == [] {
      assert a + b == b;
    } else {
      assert (a + b)[1..] == a[1..] + b;
      DigitRunOf(a[1..], b);
    }
  }

  datatype Scan = Scan(value: int, end: nat)

  /** strtol(s, &end, 10) before any clamping: leading white space, an optional
      sign, then the longest run of digits; nothing is consumed without a digit. */
  function ScanInteger(s: seq<char>): Scan {
    var blanks := SpaceRun(s);
    var signed := blanks < |s| && (s[blanks] == '-' || s[blanks] == '+');
    var start := if signed then blanks + 1 else blanks;
    var n := DigitRun(s[start..]);
    if n == 0 then Scan(0, 0)
    else
      var v: int := Value(s[start..][..n]);
      Scan(if signed && s[blanks] == '-' then 0 - v else v, start + n)
  }

  lemma ScanDigits(s: seq<char>)
    requires AllDigits(s) && s != []
    ensures ScanInteger(s) == Scan(Value(s), |s|)
  {
    DigitRunOf(s, []);
    assert s + [] == s && s[0..] == s && s[..|s|] == s;
  }

  lemma ScanNegative(s: seq<char>)
    requires AllDigits(s) && s != []
    ensures ScanInteger("-" + s) == Scan(0 - Value(s), |s| + 1)
  {
    DigitRunOf(s, []);
    assert s + [] == s;
    assert ("-" + s)[1..] == s && s[..|s|] == s;
  }

  /** Printing then scanning gives the number back and consumes the whole text. */
  lemma ScanIntText(d: int)
    ensures ScanInteger(IntText(d)) == Scan(d, |IntText(d)|)
  {
    if d < 0 {
      ValueOfDecimal(-d);
      ScanNegative(Decimal(-d));
    } else {
      ValueOfDecimal(d);
      ScanDigits(Decimal(d));
    }
  }

  // ------------------------------------------------ what the conversions mean

  const LETTERS := "abcdefghijklmnopqrstuvwxyz"
  const CAPITALS := "ABCDEFGHIJKLMNOPQRSTUVWXYZ"

  /** The k-th capital becomes the k-th letter, and nothing else changes. */
  lemma LowersCapitals(k: nat, c: char)
    requires k < 26
    ensures ToLower(CAPITALS[k]) == LETTERS[k]
    ensures c !in CAPITALS ==> ToLower(c) == c
  {
    if 'A' <= c <= 'Z' {
      assert CAPITALS[c as int - 'A' as int] == c;
    }
  }

  /** A sign, or none, before the digits of a number. */
  predicate IsNumeral(v: seq<char>, n: int) {
    var signed := v != [] && (v[0] == '-' || v[0] == '+');
    var digits := if signed then v[1..] else v;
    digits != [] && AllDigits(digits) && n == if signed && v[0] == '-' then 0 - Value(digits) else Value(digits)
  }

  const DIGITS := "0123456789"

  lemma DigitsByPosition(c: char)
    ensures IsDigit(c) <==> c in DIGITS
    ensures IsDigit(c) ==> DIGITS[DigitValue(c)] == c
  {
  }

  /** Horner's rule, with the digits read off the list of them. */
  lemma ValueByDigits(front: seq<char>, k: nat)
    requires AllDigits(front) && k < 10
    ensures AllDigits(front + [DIGITS[k]]) && Value(front + [DIGITS[k]]) == 10 * Value(front) + k
    ensures Value([]) == 0
  {
    hide Value;
    DigitsByPosition(DIGITS[k]);
    SnocValue(front, DIGITS[k]);
  }

  lemma SnocValue(front: seq<char>, c: char)
    requires AllDigits(front) && IsDigit(c)
    ensures Value(front + [c]) == 10 * Value(front) + DigitValue(c)
    ensures Value([]) == 0
  {
    assert (front + [c])[..|front|] == front;
  }

  const BLANKS := " \t\n\U{0B}\U{0C}\r"

  lemma BlanksByPosition(c: char)
    ensures IsSpace(c) <==> c in BLANKS
  {
  }

  predicate Blank(s: seq<char>) {
    forall i :: 0 <= i < |s| ==> s[i] in BLANKS
  }

  lemma {:induction false} SpaceRunOf(blanks: seq<char>, rest: seq<char>)
    requires Blank(blanks) && (rest != [] ==> !IsSpace(rest[0]))
    ensures SpaceRun(blanks + rest) == |blanks|
  {
    if blanks == [] {
      assert blanks + rest == rest;
    } else {
      assert blanks[0] in BLANKS;
      assert (blanks + rest)[1..] == blanks[1..] + rest;
      SpaceRunOf(blanks[1..], rest);
    }
  }

  /** What the scan makes of blanks, a numeral, and whatever follows it. */
  lemma ScansNumeral(blanks: seq<char>, numeral: seq<char>, n: int, rest: seq<char>)
    requires Blank(blanks) && IsNumeral(numeral, n) && (rest != [] ==> rest[0] !in DIGITS)
    ensures ScanInteger(blanks + (numeral + rest)) == Scan(n, |blanks| + |numeral|)
  {
    hide SpaceRun, DigitRun, Value;
    var s, m := blanks + (numeral + rest), |blanks|;
    if rest != [] {
      DigitsByPosition(rest[0]);
    }
    assert !IsSpace(numeral[0]);
    SpaceRunOf(blanks, numeral + rest);
    assert s[m] == numeral[0];
    var signed := numeral[0] == '-' || numeral[0] == '+';
    var digits := if signed then numeral[1..] else numeral;
    var start := if signed then m + 1 else m;
    assert s[start..] == digits + rest;
    DigitRunOf(digits, rest);
    assert (digits + rest)[..|digits|] == digits;
  }

  /** And without a digit behind the blanks and a sign, it finds zero and consumes
      nothing. */
  lemma ScansNothing(blanks: seq<char>, sign: seq<char>, rest: seq<char>)
    requires Blank(blanks) && (sign == "" || sign == "-" || sign == "+")
    requires rest != [] ==> rest[0] !in DIGITS
    requires sign == "" && rest != [] ==> rest[0] !in "+-" && rest[0] !in BLANKS
    ensures ScanInteger(blanks + (sign + rest)) == Scan(0, 0)
  {
    var s, m := blanks + (sign + rest), |blanks|;
    if rest != [] {
      DigitsByPosition(rest[0]);
      BlanksByPosition(rest[0]);
    }
    hide SpaceRun, DigitRun;
    SpaceRunOf(blanks, sign + rest);
    var start := if sign == "" then m else m + 1;
    SliceBehind(blanks, sign, rest);
    assert s[start..] == rest;
    DigitRunOf([], rest);
    assert [] + rest == rest;
  }

  lemma SliceBehind(a: seq<char>, b: seq<char>, c: seq<char>)
    ensures (a + (b + c))[|a| + |b|..] == c
    ensures b + c != [] ==> (a + (b + c))[|a|] == (b + c)[0]
  {
  }

  /** strcasecmp: equal length, and letters equal up to their case. */
  lemma EqualIgnoringCaseIff(a: seq<char>, b: seq<char>)
    ensures EqualIgnoringCase(a, b) <==> |a| == |b| && forall i :: 0 <= i < |a| ==> ToLower(a[i]) == ToLower(b[i])
  {
    if EqualIgnoringCase(a, b) {
      assert |Lower(a)| == |Lower(b)|;
      assert forall i :: 0 <= i < |a| ==> Lower(a)[i] == Lower(b)[i];
    }
  }
}
