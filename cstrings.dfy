/**
 * The few pieces of the C library the SoftAP code leans on when it reads its
 * command arguments and formats its configuration: NUL-free strings, `atoi`,
 * the `%d` conversion for non-negative values and `strcasecmp` in the C locale.
 */
module CStrings {

  /** A C string: its characters never include the terminating NUL. */
  type CString = s: string | '\0' !in s

  /** `isspace` in the C locale. */
  predicate IsSpace(c: char) {
    c == ' ' || c == '\t' || c == '\n' || c == '\U{0B}' || c == '\U{0C}' || c == '\r'
  }

  predicate IsDigit(c: char) {
    '0' <= c <= '9'
  }

  function DigitValue(c: char): (d: nat)
    requires IsDigit(c)
    ensures d < 10
  {
    (c - '0') as nat
  }

  function DigitChar(d: nat): (c: char)
    requires d < 10
    ensures IsDigit(c) && DigitValue(c) == d
  {
    "0123456789"[d]
  }

  /** What is left of `s` once its leading white space is skipped. */
  function SkipSpace(s: string): (t: string)
    ensures |t| <= |s| && t == s[|s| - |t|..]
    ensures t == [] || !IsSpace(t[0])
  {
    if s != [] && IsSpace(s[0]) then SkipSpace(s[1..]) else s
  }

  /** The longest prefix of `s` made of decimal digits. */
  function DigitPrefix(s: string): (ds: string)
    ensures ds <= s
    ensures forall i :: 0 <= i < |ds| ==> IsDigit(ds[i])
    ensures |ds| == |s| || !IsDigit(s[|ds|])
  {
    if s != [] && IsDigit(s[0]) then [s[0]] + DigitPrefix(s[1..]) else []
  }

  /** The value of a string of decimal digits, most significant first. */
  function DigitsValue(ds: string): nat
    requires forall i :: 0 <= i < |ds| ==> IsDigit(ds[i])
  {
    if ds == [] then 0 else DigitsValue(ds[..|ds| - 1]) * 10 + DigitValue(ds[|ds| - 1])
  }

  /** The range of a 32-bit C `int`. */
  const IntMin: int := -0x8000_0000
  const IntMax: int := 0x7fff_ffff

  predicate FitsInt(n: int) {
    IntMin <= n <= IntMax
  }

  /**
   * `atoi`: skip white space, take an optional sign, then the decimal digits
   * that follow; anything else ends the number, and a string with no digits
   * there is 0. The value is computed without bound: where it does not fit
   * in an `int` (FitsInt) the C function's behaviour is undefined, and the
   * callers model that case themselves.
   */
  function Atoi(s: string): (n: int)
    ensures var t := SkipSpace(s); t == [] || !(t[0] == '-' || t[0] == '+' || IsDigit(t[0])) ==> n == 0
    ensures n < 0 ==> SkipSpace(s) != [] && SkipSpace(s)[0] == '-'
  {
    var t := SkipSpace(s);
    if t != [] && (t[0] == '-' || t[0] == '+') then
      var magnitude: int := DigitsValue(DigitPrefix(t[1..]));
      if t[0] == '-' then -magnitude else magnitude
    else DigitsValue(DigitPrefix(t))
  }

  /** `%d` of a non-negative value: its decimal digits, no sign, no leading zero. */
  function Decimal(n: nat): (s: string)
    ensures s != [] && forall i :: 0 <= i < |s| ==> IsDigit(s[i])
    ensures s[0] == '0' <==> n == 0
  {
    if n < 10 then [DigitChar(n)] else Decimal(n / 10) + [DigitChar(n % 10)]
  }

  /** Reading back what `%d` printed gives the number again. */
  lemma {:induction false} DecimalValue(n: nat)
    ensures DigitsValue(Decimal(n)) == n
  {
    var s := Decimal(n);
    if n >= 10 {
      DecimalValue(n / 10);
      assert s[..|s| - 1] == Decimal(n / 10);
    }
  }

  lemma {:induction false} DigitPrefixOfDigits(ds: string)
    requires forall i :: 0 <= i < |ds| ==> IsDigit(ds[i])
    ensures DigitPrefix(ds) == ds
  {
    if ds != [] {
      DigitPrefixOfDigits(ds[1..]);
    }
  }

  /** `atoi` of a non-empty run of digits is the value of those digits. */
  lemma AtoiOfDigits(ds: string)
    requires ds != [] && forall i :: 0 <= i < |ds| ==> IsDigit(ds[i])
    ensures Atoi(ds) == DigitsValue(ds)
  {
    assert SkipSpace(ds) == ds by {
      assert !IsSpace(ds[0]);
    }
    DigitPrefixOfDigits(ds);
  }

  /** `atoi` undoes `%d`: the channel number written to the file parses back to itself. */
  lemma AtoiDecimal(n: nat)
    ensures Atoi(Decimal(n)) == n
  {
    AtoiOfDigits(Decimal(n));
    DecimalValue(n);
  }

  /** ASCII `tolower`, the only case mapping of the C locale. */
  function ToLower(c: char): char {
    if 'A' <= c <= 'Z' then (c - 'A' + 'a') as char else c
  }

  /** `strcasecmp(a, b) == 0` in the C locale. */
  predicate EqualIgnoringCase(a: string, b: string) {
    |a| == |b| && forall i :: 0 <= i < |a| ==> ToLower(a[i]) == ToLower(b[i])
  }

  /** Every letter of `s` mapped through `tolower`. */
  function Lower(s: string): (t: string)
    ensures |t| == |s| && forall i :: 0 <= i < |s| ==> t[i] == ToLower(s[i])
  {
    if s == [] then [] else [ToLower(s[0])] + Lower(s[1..])
  }

  /** `strcasecmp` finds two strings equal exactly when their lower-case forms are equal. */
  lemma EqualIgnoringCaseIff(a: string, b: string)
    ensures EqualIgnoringCase(a, b) <==> Lower(a) == Lower(b)
  {
    if EqualIgnoringCase(a, b) {
      assert forall i :: 0 <= i < |a| ==> Lower(a)[i] == Lower(b)[i];
    }
  }
}
