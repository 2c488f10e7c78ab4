/** Decimal printing and parsing of 64-bit integers, as strconv.Itoa and strconv.Atoi do it. */
module Decimal {

  const MIN_INT := -0x8000_0000_0000_0000
  const MAX_INT := 0x7FFF_FFFF_FFFF_FFFF

  datatype Parsed = Number(value: int) | NotANumber

  predicate IsDigit(c: char) {
    '0' <= c <= '9'
  }

  function DigitChar(d: int): (c: char)
    requires 0 <= d < 10
    ensures IsDigit(c) && DigitValue(c) == d
  {
    '0' + d as char
  }

  function DigitValue(c: char): (d: int)
    requires IsDigit(c)
    ensures 0 <= d < 10
  {
    (c as int) - ('0' as int)
  }

  function PrintNat(n: nat): string {
    if n < 10 then [DigitChar(n)] else PrintNat(n / 10) + [DigitChar(n % 10)]
  }

  function Itoa(n: int): string {
    if n < 0 then "-" + PrintNat(-n) else PrintNat(n)
  }

  function ParseNat(s: string): Parsed {
    if s == [] then NotANumber
    else
      var init, last := s[..|s| - 1], s[|s| - 1];
      if !IsDigit(last) then NotANumber
      else if init == [] then Number(DigitValue(last))
      else
        match ParseNat(init)
        case Number(n) => Number(10 * n + DigitValue(last))
        case NotANumber => NotANumber
  }

  /** An optional sign, at least one digit, nothing else, and in range. */
  function Atoi(s: string): Parsed {
    var signed := s != [] && (s[0] == '-' || s[0] == '+');
    match ParseNat(if signed then s[1..] else s)
    case NotANumber => NotANumber
    case Number(n) =>
      var v := if signed && s[0] == '-' then -n else n;
      if MIN_INT <= v <= MAX_INT then Number(v) else NotANumber
  }

  /** Addition of 64-bit integers wraps around. */
  function Increment(n: int): int {
    if n == MAX_INT then MIN_INT else n + 1
  }

  lemma {:induction false} PrintedNatParses(n: nat)
    ensures PrintNat(n) != [] && IsDigit(PrintNat(n)[0])
    ensures ParseNat(PrintNat(n)) == Number(n)
  {
    if n >= 10 {
      PrintedNatParses(n / 10);
      var s := PrintNat(n);
      assert s[..|s| - 1] == PrintNat(n / 10);
    }
  }

  function WithZeros(d: int, k: nat): int {
    if k == 0 then d else 10 * WithZeros(d, k - 1)
  }

  /** The value of a text of digits: each counts with as many zeros as digits follow. */
  function Value(s: string): int {
    if s == [] || !IsDigit(s[0]) then 0 else WithZeros(DigitValue(s[0]), |s| - 1) + Value(s[1..])
  }

  predicate AllDigits(s: string) {
    forall c | c in s :: IsDigit(c)
  }

  lemma {:induction false} ValueOfMore(s: string, c: char)
    requires AllDigits(s) && IsDigit(c)
    ensures Value(s + [c]) == 10 * Value(s) + DigitValue(c)
  {
    if s == [] {
      assert [c][1..] == [];
    } else {
      ValueOfMore(s[1..], c);
      assert (s + [c])[1..] == s[1..] + [c];
    }
  }

  lemma {:induction false} ParseNatMeaning(s: string)
    ensures ParseNat(s).Number? <==> s != [] && AllDigits(s)
    ensures ParseNat(s).Number? ==> ParseNat(s) == Number(Value(s))
  {
    if s != [] {
      var init, last := s[..|s| - 1], s[|s| - 1];
      assert s == init + [last];
      if init != [] {
        ParseNatMeaning(init);
      }
      if AllDigits(init) && IsDigit(last) {
        ValueOfMore(init, last);
      }
    }
  }

  /** A number is an optional sign and at least one digit, in range, worth what its digits say. */
  lemma AtoiMeaning(s: string, n: int)
    ensures Atoi(s) == Number(n) <==>
      var signed := s != [] && (s[0] == '-' || s[0] == '+');
      var digits := if signed then s[1..] else s;
      && digits != [] && AllDigits(digits)
      && n == (if signed && s[0] == '-' then -Value(digits) else Value(digits))
      && MIN_INT <= n <= MAX_INT
  {
    ParseNatMeaning(s);
    if s != [] {
      ParseNatMeaning(s[1..]);
    }
  }

  lemma {:induction false} PrintedStart(n: nat)
    ensures PrintNat(n) != [] && (PrintNat(n)[0] == '0' ==> n == 0) && (n == 0 ==> |PrintNat(n)| == 1)
  {
    if n >= 10 {
      PrintedStart(n / 10);
    }
  }

  /** Printing uses no leading zero, and a sign only for negative numbers. */
  lemma PrintedShortly(n: int)
    ensures Itoa(n) != [] && (Itoa(n)[0] == '0' ==> n == 0 && |Itoa(n)| == 1)
    ensures Itoa(n)[0] == '-' <==> n < 0
    ensures n < 0 ==> |Itoa(n)| > 1 && Itoa(n)[1] != '0'
  {
    PrintedStart(if n < 0 then -n else n);
    PrintedDigits(if n < 0 then -n else n);
    assert n >= 0 ==> Itoa(n)[0] in PrintNat(n);
  }

  lemma {:induction false} PrintedDigits(n: nat)
    ensures forall c | c in PrintNat(n) :: IsDigit(c)
  {
    if n >= 10 {
      PrintedDigits(n / 10);
    }
  }

  /** Printing uses digits and the minus sign only. */
  lemma PrintedCharacters(n: int)
    ensures forall c | c in Itoa(n) :: IsDigit(c) || c == '-'
  {
    PrintedDigits(if n < 0 then -n else n);
  }

  /** Printing and parsing back is the identity on every 64-bit integer. */
  lemma RoundTrip(n: int)
    requires MIN_INT <= n <= MAX_INT
    ensures Atoi(Itoa(n)) == Number(n)
  {
    PrintedNatParses(if n < 0 then -n else n);
    if n < 0 {
      assert Itoa(n)[1..] == PrintNat(-n);
    }
  }
}
