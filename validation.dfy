/**
 * The string validators of the utilities package: `IsValidID` (on top of a model of
 * `strconv.Atoi` for a 64-bit `int`), `IsAlphanumeric` and `SanitizeString`.
 */
module Validation {
  import opened Wrappers
  import opened GoStrings

  const MinInt64: int := -0x8000_0000_0000_0000
  const MaxInt64: int := 0x7FFF_FFFF_FFFF_FFFF

  predicate AllDigits(s: string) { forall i :: 0 <= i < |s| ==> IsDigit(s[i]) }

  function DigitValue(c: char): (d: nat)
    requires IsDigit(c)
    ensures d < 10
  {
    c as int - '0' as int
  }

  /** The value of a run of decimal digits, most significant first. */
  function DigitsValue(s: string): nat
    requires AllDigits(s)
    decreases |s|
  {
    if s == [] then 0 else DigitsValue(s[..|s| - 1]) * 10 + DigitValue(s[|s| - 1])
  }

  /** What follows an optional leading `+` or `-`. */
  function Unsigned(s: string): (u: string)
    ensures |u| <= |s|
  {
    if |s| > 0 && (s[0] == '+' || s[0] == '-') then s[1..] else s
  }

  /** An optional sign followed by at least one decimal digit. */
  predicate SignedDigits(s: string)
  {
    Unsigned(s) != [] && AllDigits(Unsigned(s))
  }

  /** The value such a string denotes: the digits' value, negated after a leading `-`. */
  function SignedValue(s: string): int
    requires SignedDigits(s)
  {
    if s[0] == '-' then 0 - DigitsValue(Unsigned(s)) else DigitsValue(Unsigned(s))
  }

  /**
   * `strconv.Atoi` on a 64-bit platform: an optional sign, at least one decimal digit and
   * nothing else (no base prefix, no underscores, no spaces), with the value in the `int` range;
   * a syntax error and a range error both give `None`. Leading zeros and a sign on zero are
   * accepted.
   */
  function Atoi(s: string): (r: Option<int>)
    ensures r.Some? <==> SignedDigits(s) && MinInt64 <= SignedValue(s) <= MaxInt64
    ensures r.Some? ==> r.value == SignedValue(s)
  {
    var digits := Unsigned(s);
    if digits == [] || !AllDigits(digits) then None
    else
      var v := if s[0] == '-' then 0 - DigitsValue(digits) else DigitsValue(digits);
      if MinInt64 <= v <= MaxInt64 then Some(v) else None
  }

  /** `IsValidID`: non-empty and accepted by `strconv.Atoi`. */
  function IsValidID(id: string): (ok: bool)
    ensures ok <==> SignedDigits(id) && MinInt64 <= SignedValue(id) <= MaxInt64
    ensures ok <==> Atoi(id).Some?
  {
    if id == "" then false else Atoi(id).Some?
  }

  /** `IsAlphanumeric`: every character is an ASCII letter of either case or a decimal digit. */
  method IsAlphanumeric(s: string) returns (ok: bool)
    ensures ok <==> forall i :: 0 <= i < |s| ==> IsUpper(s[i]) || IsLower(s[i]) || IsDigit(s[i])
  {
    for i := 0 to |s|
      invariant forall k :: 0 <= k < i ==> IsUpper(s[k]) || IsLower(s[k]) || IsDigit(s[k])
    {
      var r := s[i];
      if !(IsUpper(r) || IsLower(r) || IsDigit(r)) {
        return false;
      }
    }
    return true;
  }

  /** `SanitizeString`: strip cutset punctuation from both edges, then upper-case. */
  function SanitizeString(s: string): (r: string)
    ensures |r| <= |s|
    ensures forall i :: 0 <= i < |r| ==> !IsLower(r[i])
    ensures r == [] || (!InCutset(r[0]) && !InCutset(r[|r| - 1]))
  {
    ToUpper(Trim(s))
  }

  // ---------------------------------------------------------------------------
  // The decimal rendering of an integer (`strconv.Itoa`), as the inverse of Atoi
  // ---------------------------------------------------------------------------

  function DigitChar(d: nat): (c: char)
    requires d < 10
    ensures IsDigit(c) && DigitValue(c) == d
  {
    ('0' as int + d) as char
  }

  function DecimalDigits(n: nat): (s: string)
    ensures s != [] && AllDigits(s)
    decreases n
  {
    if n < 10 then [DigitChar(n)] else DecimalDigits(n / 10) + [DigitChar(n % 10)]
  }

  function Itoa(n: int): string
  {
    if n < 0 then "-" + DecimalDigits(-n) else DecimalDigits(n)
  }

  lemma {:induction false} DecimalDigitsValue(n: nat)
    ensures DigitsValue(DecimalDigits(n)) == n
    decreases n
  {
    if n >= 10 {
      var s := DecimalDigits(n);
      assert s[..|s| - 1] == DecimalDigits(n / 10);
      DecimalDigitsValue(n / 10);
    }
  }

  /** Every 64-bit integer, written in decimal, is a valid ID that parses back to itself. */
  lemma AtoiItoa(n: int)
    requires MinInt64 <= n <= MaxInt64
    ensures Atoi(Itoa(n)) == Some(n)
    ensures IsValidID(Itoa(n))
  {
    if n < 0 {
      var d := DecimalDigits(-n);
      assert Unsigned("-" + d) == d;
      DecimalDigitsValue(-n);
    } else {
      var d := DecimalDigits(n);
      assert Unsigned(d) == d;
      DecimalDigitsValue(n);
    }
  }

  /** A character that is neither a digit nor a leading sign makes the ID invalid. */
  lemma NonDigitRejected(id: string, i: nat)
    requires i < |id| && !IsDigit(id[i])
    requires i > 0 || (id[0] != '+' && id[0] != '-')
    ensures !IsValidID(id)
  {
  }

  /** A lone sign is not a number. */
  lemma SignAloneRejected()
    ensures !IsValidID("+") && !IsValidID("-")
  {
    assert Unsigned("+") == [];
    assert Unsigned("-") == [];
  }

  /** A decimal rendering is a valid ID exactly when the number is in the 64-bit range. */
  lemma ItoaValidIffInRange(n: int)
    ensures IsValidID(Itoa(n)) <==> MinInt64 <= n <= MaxInt64
  {
    if n < 0 {
      var d := DecimalDigits(-n);
      assert Unsigned("-" + d) == d;
      DecimalDigitsValue(-n);
    } else {
      var d := DecimalDigits(n);
      assert Unsigned(d) == d;
      DecimalDigitsValue(n);
    }
  }

  /** `strconv.Atoi` is lenient: an explicit plus sign, leading zeros and a signed zero are all accepted. */
  lemma LenientForms()
    ensures Atoi("+7") == Some(7) && Atoi("007") == Some(7) && Atoi("-0") == Some(0)
    ensures IsValidID("+7") && IsValidID("007") && IsValidID("-0")
  {
    assert Unsigned("+7") == "7";
    assert "7"[..0] == [];
    assert DigitsValue("7") == 7;
    assert Unsigned("007") == "007";
    assert "007"[..2] == "00" && "00"[..1] == "0" && "0"[..0] == [];
    assert DigitsValue("007") == 7;
    assert Unsigned("-0") == "0";
    assert DigitsValue("0") == 0;
  }

  /** The examples the package's tests use. */
  lemma IsValidIDExamples()
    ensures IsValidID("123") && IsValidID("1") && IsValidID("999999")
    ensures !IsValidID("") && !IsValidID("abc") && !IsValidID("123abc")
    ensures !IsValidID("123 456") && !IsValidID("123!")
  {
    AtoiItoa(123);
    assert Itoa(123) == "123";
    AtoiItoa(1);
    assert Itoa(1) == "1";
    AtoiItoa(999999);
    assert Itoa(999999) == "999999";
    NonDigitRejected("abc", 0);
    NonDigitRejected("123abc", 3);
    NonDigitRejected("123 456", 3);
    NonDigitRejected("123!", 3);
  }

  /** Sanitising twice is sanitising once. */
  lemma SanitizeIdempotent(s: string)
    ensures SanitizeString(SanitizeString(s)) == SanitizeString(s)
  {
    var r := SanitizeString(s);
    TrimClean(r);
    ToUpperNormalizes(Trim(s));
  }

  /** A string with no lower-case letter and no cutset character at either edge is returned unchanged. */
  lemma SanitizeClean(s: string)
    requires forall i :: 0 <= i < |s| ==> !IsLower(s[i])
    requires s == [] || (!InCutset(s[0]) && !InCutset(s[|s| - 1]))
    ensures SanitizeString(s) == s
  {
    TrimClean(s);
  }

  /** Only the edges are stripped: punctuation inside the word survives, as the tests show. */
  lemma SanitizeKeepsInnerPunctuation()
    ensures SanitizeString("hello,world!") == "HELLO,WORLD"
  {
    assert LeftCut("hello,world!") == 0;
    assert RightEnd("hello,world!") == 11;
    assert "hello,world!"[0..][..11] == "hello,world";
  }

  /** Brackets at both edges go: "(bracketed)" becomes "BRACKETED". */
  lemma SanitizeStripsBrackets()
    ensures SanitizeString("(bracketed)") == "BRACKETED"
  {
    BracketedLeft();
    BracketedRight();
    assert "(bracketed)"[1..][..9] == "bracketed";
    assert ToUpper("bracketed") == "BRACKETED";
  }

  lemma BracketedLeft()
    ensures LeftCut("(bracketed)") == 1 && "(bracketed)"[1..] == "bracketed)"
  {
    assert "(bracketed)"[1..] == "bracketed)";
    assert LeftCut("bracketed)") == 0;
  }

  lemma BracketedRight()
    ensures RightEnd("bracketed)") == 9
  {
    assert "bracketed)"[..9] == "bracketed";
    assert RightEnd("bracketed") == 9;
  }
}
