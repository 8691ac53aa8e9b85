/** Byte strings, numbers and unsigned arithmetic as the firmware and the host
    tool use them: the Arduino String operations, the C conversions behind
    them (atol, utoa) and unsigned long wrap-around. A `char` stands for one
    byte of an Arduino String. */
module Text {

  /** unsigned long, the type of millis() timestamps. */
  type U32 = x: int | 0 <= x < 0x1_0000_0000

  /** uint8_t. */
  type Byte = x: int | 0 <= x < 256

  datatype Option<T> = None | Some(value: T)

  const Nul: char := 0 as char

  function Min(a: int, b: int): int { if a < b then a else b }
  function Max(a: int, b: int): int { if a < b then b else a }

  /** `now - since` on unsigned long: the difference modulo 2^32. */
  function Elapsed(now: U32, since: U32): (d: U32)
    ensures now >= since ==> d == now - since
    ensures now < since ==> d == now + 0x1_0000_0000 - since
  {
    (now - since) % 0x1_0000_0000
  }

  /** `a + b` on unsigned long. */
  function AddU32(a: U32, b: U32): U32 {
    (a + b) % 0x1_0000_0000
  }

  /** C isspace() in the "C" locale: space, \t, \n, \v, \f, \r. */
  predicate IsSpace(c: char) {
    c == ' ' || 9 <= c as int <= 13
  }

  predicate IsDigit(c: char) {
    '0' <= c <= '9'
  }

  predicate AllDigits(s: string) {
    forall i :: 0 <= i < |s| ==> IsDigit(s[i])
  }

  function DigitChar(d: nat): (c: char)
    requires d < 10
    ensures IsDigit(c) && c as int - '0' as int == d
  {
    (d + '0' as int) as char
  }

  function DigitValue(c: char): nat
    requires IsDigit(c)
  {
    c as int - '0' as int
  }

  // ---------------------------------------------------------------------
  // Numbers as text

  /** Decimal text of n without leading zeros: String(n) / utoa(n, 10) on the
      firmware, str(n) in Python, for n >= 0. */
  function Decimal(n: nat): (s: string)
    ensures |s| > 0 && AllDigits(s)
    ensures |s| > 1 ==> s[0] != '0'
    decreases n
  {
    if n < 10 then [DigitChar(n)] else Decimal(n / 10) + [DigitChar(n % 10)]
  }

  /** The number a string of decimal digits denotes. */
  function DigitsValue(s: string): nat
    requires AllDigits(s)
    decreases |s|
  {
    if s == [] then 0 else DigitsValue(s[..|s| - 1]) * 10 + DigitValue(s[|s| - 1])
  }

  /** Reading the decimal text of n back gives n. */
  lemma {:induction false} DecimalValue(n: nat)
    ensures DigitsValue(Decimal(n)) == n
    decreases n
  {
    if n >= 10 {
      var s := Decimal(n);
      assert s[..|s| - 1] == Decimal(n / 10);
      DecimalValue(n / 10);
    }
  }

  /** Different numbers have different decimal texts. */
  lemma DecimalInjective(m: nat, n: nat)
    ensures Decimal(m) == Decimal(n) <==> m == n
  {
    if Decimal(m) == Decimal(n) {
      DecimalValue(m);
      DecimalValue(n);
    }
  }

  /** The longest prefix of s made of decimal digits. */
  function LeadingDigits(s: string): (d: string)
    ensures AllDigits(d) && d <= s
    ensures |d| == |s| || !IsDigit(s[|d|])
  {
    if s != [] && IsDigit(s[0]) then [s[0]] + LeadingDigits(s[1..]) else []
  }

  lemma {:induction false} LeadingDigitsOfDigits(d: string, rest: string)
    requires AllDigits(d)
    requires rest == [] || !IsDigit(rest[0])
    ensures LeadingDigits(d + rest) == d
    decreases |d|
  {
    if d != [] {
      assert (d + rest)[1..] == d[1..] + rest;
      LeadingDigitsOfDigits(d[1..], rest);
    } else {
      assert d + rest == rest;
    }
  }

  function SkipSpaces(s: string): (t: string)
    ensures |t| <= |s| && t == s[|s| - |t|..]
    ensures forall i :: 0 <= i < |s| - |t| ==> IsSpace(s[i])
    ensures t == [] || !IsSpace(t[0])
  {
    if s != [] && IsSpace(s[0]) then
      var t := SkipSpaces(s[1..]);
      assert s[1..][|s| - 1 - |t|..] == s[|s| - |t|..];
      assert forall i :: 1 <= i < |s| - |t| ==> s[i] == s[1..][i - 1];
      t
    else s
  }

  /** Arduino String::toInt(), which is atol(): leading white space, an
      optional sign, then decimal digits; 0 when no digit follows. The result
      is a mathematical integer (long overflow is not modelled). */
  function ToInt(s: string): int {
    var t := SkipSpaces(s);
    if t != [] && t[0] == '-' then -(DigitsValue(LeadingDigits(t[1..])) as int)
    else if t != [] && t[0] == '+' then DigitsValue(LeadingDigits(t[1..]))
    else DigitsValue(LeadingDigits(t))
  }

  /** A text that starts with a digit is read as its leading digits. */
  lemma ToIntOfDigits(s: string)
    requires s != [] && IsDigit(s[0])
    ensures ToInt(s) == DigitsValue(LeadingDigits(s))
  {
    assert !IsSpace(s[0]) && s[0] != '-' && s[0] != '+';
    assert SkipSpaces(s) == s;
  }

  /** toInt() reads back the decimal text of n, whatever non-digit follows. */
  lemma ToIntDecimal(n: nat, rest: string)
    requires rest == [] || !IsDigit(rest[0])
    ensures ToInt(Decimal(n) + rest) == n
  {
    var d := Decimal(n);
    assert (d + rest)[0] == d[0];
    ToIntOfDigits(d + rest);
    LeadingDigitsOfDigits(d, rest);
    DecimalValue(n);
  }

  /** The (uint8_t) cast of a long: the value modulo 256. */
  function ToByte(x: int): Byte {
    x % 256
  }

  // ---------------------------------------------------------------------
  // Arduino String operations

  /** String::startsWith. */
  predicate StartsWith(s: string, p: string) {
    p <= s
  }

  /** String::endsWith. */
  predicate EndsWith(s: string, p: string) {
    |p| <= |s| && s[|s| - |p|..] == p
  }

  /** t occurs in s starting at position i. */
  predicate OccursAt(s: string, t: string, i: nat) {
    i + |t| <= |s| && s[i..i + |t|] == t
  }

  /** Python's `t in s`: t occurs somewhere in s. */
  predicate Contains(s: string, t: string) {
    exists i :: 0 <= i <= |s| - |t| && OccursAt(s, t, i)
  }

  /** String::indexOf(c, from): the first position at or after `from`
      holding c, or -1. */
  function IndexOf(s: string, c: char, from: nat): (k: int)
    ensures k == -1 || (from <= k < |s| && s[k] == c)
    ensures forall j :: from <= j < |s| && (k == -1 || j < k) ==> s[j] != c
    decreases |s| - from
  {
    if from >= |s| then -1 else if s[from] == c then from else IndexOf(s, c, from + 1)
  }

  /** String::lastIndexOf(c): the last position holding c, or -1. */
  function LastIndexOf(s: string, c: char): (k: int)
    ensures -1 <= k < |s|
    ensures k >= 0 ==> s[k] == c
    ensures forall j :: k < j < |s| ==> s[j] != c
    decreases |s|
  {
    if s == [] then -1 else if s[|s| - 1] == c then |s| - 1 else LastIndexOf(s[..|s| - 1], c)
  }

  /** String::substring(left, right): the arguments are swapped when left >
      right, `right` is clamped to the length, and a start at or past the end
      gives "". A `right` of (unsigned) -1 is passed as 2^32 - 1. */
  function Substring(s: string, left: nat, right: nat): (r: string)
    ensures left <= right <= |s| ==> r == s[left..right]
    ensures right < left <= |s| ==> r == s[right..left]
    ensures Min(left, right) >= |s| ==> r == ""
    ensures Min(left, right) < |s| < Max(left, right) ==> r == s[Min(left, right)..]
  {
    var lo := Min(left, right);
    var hi := Max(left, right);
    if lo >= |s| then "" else s[lo..Min(hi, |s|)]
  }

  /** String::trim(): white space removed from both ends. */
  function Trim(s: string): (t: string)
    ensures |t| <= |s|
    ensures t == [] || (!IsSpace(t[0]) && !IsSpace(t[|t| - 1]))
    ensures (s == [] || (!IsSpace(s[0]) && !IsSpace(s[|s| - 1]))) ==> t == s
    ensures t == [] <==> forall i :: 0 <= i < |s| ==> IsSpace(s[i])
  {
    TrimRight(SkipSpaces(s))
  }

  function TrimRight(s: string): (t: string)
    ensures t <= s
    ensures t == [] || !IsSpace(t[|t| - 1])
    ensures forall i :: |t| <= i < |s| ==> IsSpace(s[i])
    decreases |s|
  {
    if s != [] && IsSpace(s[|s| - 1]) then TrimRight(s[..|s| - 1]) else s
  }

  /** String(buffer) on a char buffer: the characters before the first NUL,
      or all of them when there is none. */
  function CutAtNul(s: string): (t: string)
    ensures t <= s && Nul !in t
    ensures |t| == |s| || s[|t|] == Nul
  {
    if s == [] || s[0] == Nul then [] else [s[0]] + CutAtNul(s[1..])
  }

  lemma {:induction false} CutAtNulNone(s: string)
    requires Nul !in s
    ensures CutAtNul(s) == s
    decreases |s|
  {
    if s != [] {
      assert s[0] in s;
      assert forall c :: c in s[1..] ==> c in s;
      CutAtNulNone(s[1..]);
    }
  }

  /** Upper-case ASCII; other characters are kept (String::toUpperCase). */
  function ToUpperChar(c: char): char {
    if 'a' <= c <= 'z' then (c as int - 32) as char else c
  }

  function ToUpper(s: string): (t: string)
    ensures |t| == |s| && forall i :: 0 <= i < |s| ==> t[i] == ToUpperChar(s[i])
  {
    seq(|s|, i requires 0 <= i < |s| => ToUpperChar(s[i]))
  }
}
