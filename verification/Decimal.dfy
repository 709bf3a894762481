/** The decimal numbers of strconv, and the bounded reads and the prints built on them. */
module Decimal {
  import opened Prelude

  const TWO_TO_16 := 0x1_0000
  const TWO_TO_32 := 0x1_0000_0000
  const TWO_TO_63 := 0x8000_0000_0000_0000
  const TWO_TO_64 := 0x1_0000_0000_0000_0000

  predicate IsDigit(c: char) {
    '0' <= c <= '9'
  }

  predicate AllDigits(s: string) {
    forall i :: 0 <= i < |s| ==> IsDigit(s[i])
  }

  function DigitValue(c: char): (d: nat)
    requires IsDigit(c)
    ensures d < 10
  {
    c as int - '0' as int
  }

  function Digit(d: nat): (c: char)
    requires d < 10
    ensures IsDigit(c) && DigitValue(c) == d
  {
    ('0' as int + d) as char
  }

  /** The number a digit string denotes. */
  function Value(s: string): nat
    requires AllDigits(s)
  {
    if s == "" then 0 else 10 * Value(s[..|s| - 1]) + DigitValue(s[|s| - 1])
  }

  function Print(n: nat): (s: string)
    ensures s != "" && AllDigits(s)
  {
    if n < 10 then [Digit(n)] else Print(n / 10) + [Digit(n % 10)]
  }

  lemma {:induction false} ValueOfPrint(n: nat)
    ensures Value(Print(n)) == n
    ensures n > 0 ==> Print(n)[0] != '0'
  {
    if n >= 10 {
      ValueOfPrint(n / 10);
      assert Print(n)[..|Print(n)| - 1] == Print(n / 10);
    }
  }

  /** The ten digits and the place-value system. */
  lemma Numerals(n: nat)
    ensures n < 10 ==> Print(n) == ["0123456789"[n]]
    ensures n >= 10 ==> Print(n) == Print(n / 10) + ["0123456789"[n % 10]]
  {
    TenDigits(n % 10);
  }

  lemma TenDigits(d: nat)
    requires d < 10
    ensures Digit(d) == "0123456789"[d]
  {
  }

  lemma ReadsNumerals(s: string, d: nat)
    requires AllDigits(s) && d < 10
    ensures AllDigits(s + ["0123456789"[d]]) && Value(s + ["0123456789"[d]]) == 10 * Value(s) + d
    ensures Value("") == 0
  {
    TenDigits(d);
    assert (s + ["0123456789"[d]])[..|s|] == s;
  }

  /** Numerals without leading zeros are exactly the printed ones. */
  predicate NoLeadingZero(s: string) {
    s != "" && (|s| == 1 || s[0] != '0')
  }

  lemma {:induction false} PrintOfValue(s: string)
    requires AllDigits(s) && NoLeadingZero(s)
    ensures Print(Value(s)) == s
    ensures s[0] != '0' ==> Value(s) > 0
  {
    var last := |s| - 1;
    if last == 0 {
      assert Value(s[..0]) == 0;
    } else {
      PrintOfValue(s[..last]);
      assert s == s[..last] + [s[last]];
    }
  }

  lemma {:induction false} PrefixIsSmaller(s: string, n: nat)
    requires AllDigits(s) && n <= |s|
    ensures Value(s[..n]) <= Value(s)
  {
    if n < |s| {
      var shorter := s[..|s| - 1];
      assert shorter[..n] == s[..n];
      PrefixIsSmaller(shorter, n);
    } else {
      assert s[..n] == s;
    }
  }

  // ---- strconv.ParseUint(s, 10, bits) ----

  /** The unsigned numbers of a width: non-empty digit strings whose value fits. */
  function UintOf(s: string, bound: nat): Option<nat> {
    if s != "" && AllDigits(s) && Value(s) < bound then Some(Value(s)) else None
  }

  datatype NumError = NoError | ErrSyntax | ErrRange

  /** The first number whose tenfold overflows 64 bits. */
  const CUTOFF: nat := (TWO_TO_64 - 1) / 10 + 1

  /** Unsigned 64-bit arithmetic. */
  function Wrap(n: nat): (w: nat)
    ensures n < TWO_TO_64 ==> w == n
    ensures TWO_TO_64 <= n < 2 * TWO_TO_64 ==> w == n - TWO_TO_64
  {
    n % TWO_TO_64
  }

  lemma OneMoreDigit(s: string, i: nat)
    requires i < |s| && AllDigits(s[..i]) && IsDigit(s[i])
    ensures AllDigits(s[..i + 1]) && Value(s[..i + 1]) == 10 * Value(s[..i]) + DigitValue(s[i])
  {
    assert s[..i + 1][..i] == s[..i];
  }

  /**
   * strconv's loop on 64-bit words: it accepts exactly the digit strings that fit, although
   * n * 10 and n + d wrap around, and stops at the first overflow with the largest value.
   */
  method ParseUint(s: string, bound: nat) returns (n: nat, err: NumError)
    requires 0 < bound <= TWO_TO_64
    ensures err == NoError <==> UintOf(s, bound).Some?
    ensures err == NoError ==> UintOf(s, bound) == Some(n)
    ensures err == ErrRange ==> n == bound - 1 && (AllDigits(s) ==> Value(s) >= bound)
    ensures s == "" || (AllDigits(s) && Value(s) < bound) ==> err != ErrRange
  {
    if s == "" {
      return 0, ErrSyntax;
    }
    n := 0;
    var i := 0;
    while i < |s|
      invariant 0 <= i <= |s|
      invariant AllDigits(s[..i]) && n == Value(s[..i]) && n < bound
    {
      if !IsDigit(s[i]) {
        return 0, ErrSyntax;
      }
      var d := DigitValue(s[i]);
      OneMoreDigit(s, i);
      if n >= CUTOFF {
        TooBig(s, i + 1, bound);
        return bound - 1, ErrRange;
      }
      n := Wrap(n * 10);
      var n1 := Wrap(n + d);
      if n1 < n || n1 > bound - 1 {
        TooBig(s, i + 1, bound);
        return bound - 1, ErrRange;
      }
      n := n1;
      i := i + 1;
    }
    assert s[..i] == s;
    err := NoError;
  }

  lemma TooBig(s: string, n: nat, bound: nat)
    requires n <= |s| && AllDigits(s[..n]) && Value(s[..n]) >= bound
    ensures AllDigits(s) ==> Value(s) >= bound
  {
    if AllDigits(s) {
      PrefixIsSmaller(s, n);
    }
  }

  // ---- strconv.ParseInt(s, 10, 64) ----

  /** The digits of a number and whether it is negative; one sign may come first. */
  function Unsigned(s: string): (bool, string) {
    if s != "" && s[0] == '+' then (false, s[1..])
    else if s != "" && s[0] == '-' then (true, s[1..])
    else (false, s)
  }

  /** The signed 64-bit numbers: digits after an optional sign, in range. */
  function Int64Of(s: string): Option<int> {
    var (neg, digits) := Unsigned(s);
    if digits == "" || !AllDigits(digits) then None
    else
      var n: int := (if neg then -1 else 1) * Value(digits);
      if -TWO_TO_63 <= n < TWO_TO_63 then Some(n) else None
  }

  method ParseInt64(s: string) returns (n: int, err: NumError)
    ensures err == NoError <==> Int64Of(s).Some?
    ensures err == NoError ==> Int64Of(s) == Some(n)
  {
    if s == "" {
      return 0, ErrSyntax;
    }
    var digits, neg := s, false;
    if s[0] == '+' {
      digits := s[1..];
    } else if s[0] == '-' {
      neg, digits := true, s[1..];
    }
    var un, uerr := ParseUint(digits, TWO_TO_64);
    if uerr == ErrSyntax {
      return 0, ErrSyntax;
    }
    if !neg && un >= TWO_TO_63 {
      return TWO_TO_63 - 1, ErrRange;
    }
    if neg && un > TWO_TO_63 {
      return -TWO_TO_63, ErrRange;
    }
    return if neg then -un else un, NoError;
  }

  // ---- numString ----

  function Itoa(i: int): string {
    if i < 0 then "-" + Print(-i) else Print(i)
  }

  /** The conversion to a 64-bit int: values from 2^63 on become negative. */
  function ToInt(n: int): int {
    if n < TWO_TO_63 then n else n - TWO_TO_64
  }

  function NumString(n: int): string {
    Itoa(ToInt(n))
  }

  /** Unsigned numbers come back, exactly below 2^63: above it they print with a minus sign. */
  lemma UintRoundTrip(n: nat, bound: nat)
    requires n < bound <= TWO_TO_64
    ensures UintOf(NumString(n), bound) == Some(n) <==> n < TWO_TO_63
    ensures n >= TWO_TO_63 ==> UintOf(NumString(n), bound) == None
  {
    if n < TWO_TO_63 {
      ValueOfPrint(n);
    } else {
      assert NumString(n)[0] == '-';
    }
  }

  /** What numString prints: the number below 2^63, and what it lacks to 2^64 with a minus sign above. */
  lemma NumStringText(n: int)
    requires -TWO_TO_63 <= n < TWO_TO_64
    ensures 0 <= n < TWO_TO_63 ==> NumString(n) == Print(n)
    ensures n < 0 ==> NumString(n) == "-" + Print(-n)
    ensures n >= TWO_TO_63 ==> NumString(n) == "-" + Print(TWO_TO_64 - n)
  {
  }

  lemma Uint64TopBitFails()
    ensures UintOf(NumString(TWO_TO_63), TWO_TO_64) == None
  {
    UintRoundTrip(TWO_TO_63, TWO_TO_64);
  }

  lemma Int64RoundTrip(n: int)
    requires -TWO_TO_63 <= n < TWO_TO_63
    ensures Int64Of(NumString(n)) == Some(n)
  {
    if n < 0 {
      ValueOfPrint(-n);
      assert ("-" + Print(-n))[1..] == Print(-n);
    } else {
      ValueOfPrint(n);
      assert IsDigit(Print(n)[0]);
    }
  }

  lemma NumStringIsPlain(n: int)
    ensures forall c :: c in NumString(n) ==> c == '-' || IsDigit(c)
  {
    forall c | c in NumString(n)
      ensures c == '-' || IsDigit(c)
    {
      var i :| 0 <= i < |NumString(n)| && NumString(n)[i] == c;
    }
  }
}
