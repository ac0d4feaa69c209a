/**
 * The `idx` query parameter of the group endpoint: `strconv.Atoi` on a 64-bit
 * platform, and the handler's rule that a missing or malformed value selects
 * group 0.
 */
module IndexParam {
  import opened Wrappers
  import opened Types

  predicate IsDigit(c: char) {
    '0' <= c <= '9'
  }

  predicate AllDigits(s: string) {
    forall i :: 0 <= i < |s| ==> IsDigit(s[i])
  }

  function DigitValue(c: char): nat
    requires IsDigit(c)
  {
    c as int - '0' as int
  }

  function DigitChar(d: nat): (c: char)
    requires d < 10
    ensures IsDigit(c) && DigitValue(c) == d
  {
    ('0' as int + d) as char
  }

  /** The value of a run of decimal digits, read left to right. */
  function DigitsValue(s: string): nat
    requires AllDigits(s)
  {
    if s == [] then 0 else DigitsValue(s[..|s| - 1]) * 10 + DigitValue(s[|s| - 1])
  }

  /**
   * `strconv.Atoi`: an optional '+' or '-' and at least one decimal digit,
   * nothing else (no spaces, no underscores), with a value that fits in `int`.
   */
  function Atoi(s: string): (r: Option<int>)
    ensures r.Some? ==> MinInt64 <= r.value <= MaxInt64
    ensures r.Some? ==> |s| > 0 && (AllDigits(s) || (|s| > 1 && (s[0] == '-' || s[0] == '+') && AllDigits(s[1..])))
    ensures |s| > 0 && AllDigits(s) ==>
              r == (if DigitsValue(s) <= MaxInt64 then Some(DigitsValue(s) as int) else None)
    ensures |s| > 1 && s[0] == '+' && AllDigits(s[1..]) ==>
              r == (if DigitsValue(s[1..]) <= MaxInt64 then Some(DigitsValue(s[1..]) as int) else None)
    ensures |s| > 1 && s[0] == '-' && AllDigits(s[1..]) ==>
              r == (if -(DigitsValue(s[1..]) as int) >= MinInt64 then Some(-(DigitsValue(s[1..]) as int)) else None)
  {
    if s == [] then None
    else
      var digits := if s[0] == '-' || s[0] == '+' then s[1..] else s;
      if digits == [] || !AllDigits(digits) then None
      else
        var v: int := if s[0] == '-' then -(DigitsValue(digits) as int) else DigitsValue(digits);
        if MinInt64 <= v <= MaxInt64 then Some(v) else None
  }

  /** The shortest decimal spelling of `n`. */
  function Decimal(n: nat): (r: string)
    ensures |r| > 0 && AllDigits(r)
  {
    if n < 10 then [DigitChar(n)] else Decimal(n / 10) + [DigitChar(n % 10)]
  }

  lemma {:induction false} DecimalValue(n: nat)
    ensures DigitsValue(Decimal(n)) == n
  {
    if n >= 10 {
      var r := Decimal(n);
      assert r[..|r| - 1] == Decimal(n / 10);
      DecimalValue(n / 10);
    }
  }

  /** How Go prints an `int` in base 10. */
  function Itoa(n: int): (r: string)
    ensures |r| > 0
  {
    if n < 0 then "-" + Decimal(-n) else Decimal(n)
  }

  /** Every `int` read back from its decimal spelling is itself. */
  lemma AtoiItoa(n: int)
    requires MinInt64 <= n <= MaxInt64
    ensures Atoi(Itoa(n)) == Some(n)
  {
    if n < 0 {
      DecimalValue(-n);
      assert Itoa(n)[1..] == Decimal(-n);
    } else {
      DecimalValue(n);
    }
  }

  /** The group index the handler uses: the parsed value, or 0 when it is missing or does not parse. */
  function ParseIdx(v: string): (idx: int)
    ensures v == "" || Atoi(v).None? ==> idx == 0
    ensures Atoi(v).Some? ==> idx == Atoi(v).value
  {
    if v == "" then 0
    else match Atoi(v)
      case Some(n) => n
      case None => 0
  }

  /** A printed index selects that index. */
  lemma ParseIdxOfPrinted(n: int)
    requires MinInt64 <= n <= MaxInt64
    ensures ParseIdx(Itoa(n)) == n
  {
    AtoiItoa(n);
  }

  /**
   * Text that does not parse, here a number with a leading space, silently
   * selects the first group instead of failing, while a leading '+' is accepted.
   */
  lemma MalformedIndexSelectsFirstGroup()
    ensures ParseIdx(" 7") == 0
    ensures ParseIdx("+7") == 7
  {
    assert !IsDigit(" 7"[0]);
    assert "+7"[1..] == "7";
    assert DigitsValue("7") == 7 by {
      assert "7"[..0] == [];
    }
  }

  /** Leading zeros and a sign are accepted, and a negative zero is zero. */
  lemma LeadingZerosAccepted()
    ensures Atoi("007") == Some(7)
    ensures Atoi("-0") == Some(0)
    ensures Atoi("+0012") == Some(12)
  {
    assert AllDigits("007");
    assert "007"[..2] == "00" && "00"[..1] == "0" && "0"[..0] == [];
    assert "-0"[1..] == "0";
    assert "+0012"[1..] == "0012";
    assert "0012"[..3] == "001" && "001"[..2] == "00";
  }

  /** An index beyond 64 bits does not parse either, so it too selects the first group. */
  lemma OverflowingIndexSelectsFirstGroup(n: nat)
    requires n > MaxInt64
    ensures ParseIdx(Decimal(n)) == 0
  {
    DecimalValue(n);
  }
}
