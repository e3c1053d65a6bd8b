/** Decimal numbers as text: fmt's %d and %0wd for naturals, and strconv.ParseInt with 64 bits. */
module Decimal {
  import opened Text

  const MAX_INT64 := 0x7FFF_FFFF_FFFF_FFFF

  predicate IsDigit(c: char) {
    '0' <= c <= '9'
  }

  predicate AllDigits(s: string) {
    forall c :: c in s ==> IsDigit(c)
  }

  function Pow10(n: nat): nat {
    if n == 0 then 1 else 10 * Pow10(n - 1)
  }

  function DigitValue(c: char): nat {
    if IsDigit(c) then (c - '0') as nat else 0
  }

  function Value(digits: string): nat {
    if digits == "" then 0
    else 10 * Value(digits[..|digits| - 1]) + DigitValue(digits[|digits| - 1])
  }

  function Digit(n: nat): char
    requires n < 10
  {
    '0' + n as char
  }

  /** %d. */
  function Print(n: nat): string {
    if n < 10 then [Digit(n)] else Print(n / 10) + [Digit(n % 10)]
  }

  /** %0wd. */
  function PrintPadded(n: nat, width: nat): string {
    var s := Print(n);
    seq(if |s| < width then width - |s| else 0, _ => '0') + s
  }

  function ParseInt64(s: string): Option<int> {
    var negative := s != "" && s[0] == '-';
    var digits := if s != "" && (s[0] == '-' || s[0] == '+') then s[1..] else s;
    var v: int := Value(digits);
    if digits == "" || !AllDigits(digits) then None
    else if negative then (if v <= MAX_INT64 + 1 then Some(-v) else None)
    else if v <= MAX_INT64 then Some(v) else None
  }

  lemma {:induction false} PrintValue(n: nat)
    ensures Value(Print(n)) == n && AllDigits(Print(n)) && |Print(n)| > 0
  {
    if n < 10 {
      assert [Digit(n)][..0] == "";
    } else {
      PrintValue(n / 10);
      assert Print(n)[..|Print(n)| - 1] == Print(n / 10);
    }
  }

  lemma {:induction false} FirstDigit(n: nat)
    ensures |Print(n)| > 0 && (Print(n)[0] == '0' <==> n == 0)
  {
    if n >= 10 { FirstDigit(n / 10); }
  }

  lemma PrintOneMore(v: nat, d: char)
    requires v > 0 && IsDigit(d)
    ensures Print(10 * v + DigitValue(d)) == Print(v) + [d]
  {
    var n := 10 * v + DigitValue(d);
    assert n / 10 == v && n % 10 == DigitValue(d);
  }

  /** A number is printed as the only text with its value and no leading zero. */
  lemma {:induction false} PrintUndoesValue(s: string)
    requires s != "" && AllDigits(s) && (|s| == 1 || s[0] != '0')
    ensures Print(Value(s)) == s
  {
    var n := |s| - 1;
    assert s[n] in s;
    if n == 0 {
      assert s[..n] == "" && s == [s[n]];
    } else {
      assert forall c :: c in s[..n] ==> c in s;
      PrintUndoesValue(s[..n]);
      FirstDigit(Value(s[..n]));
      PrintOneMore(Value(s[..n]), s[n]);
      assert s == s[..n] + [s[n]];
    }
  }

  lemma {:induction false} PrintLength(n: nat, w: nat)
    requires w > 0 && n < Pow10(w)
    ensures |Print(n)| <= w
  {
    if n >= 10 {
      PrintLength(n / 10, w - 1);
    }
  }

  lemma TimesTen(v: nat, p: nat)
    ensures v * (10 * p) == 10 * (v * p)
  {
  }

  lemma {:induction false} ValueConcat(a: string, b: string)
    ensures Value(a + b) == Value(a) * Pow10(|b|) + Value(b)
  {
    if b == "" {
      assert a + b == a;
    } else {
      var n := |b| - 1;
      ValueConcat(a, b[..n]);
      assert (a + b)[..|a + b| - 1] == a + b[..n];
      TimesTen(Value(a), Pow10(n));
    }
  }

  lemma {:induction false} LeadingZeros(zeros: string, s: string)
    requires forall c :: c in zeros ==> c == '0'
    ensures Value(zeros + s) == Value(s)
    decreases |zeros| + |s|
  {
    if s != "" {
      assert (zeros + s)[..|zeros + s| - 1] == zeros + s[..|s| - 1];
      LeadingZeros(zeros, s[..|s| - 1]);
    } else if zeros != "" {
      var z := zeros[..|zeros| - 1];
      assert forall c :: c in z ==> c in zeros;
      assert zeros + s == zeros && z + s == z;
      LeadingZeros(z, s);
      assert zeros[|zeros| - 1] in zeros;
    }
  }

  lemma PaddedValue(n: nat, width: nat)
    ensures Value(PrintPadded(n, width)) == n && AllDigits(PrintPadded(n, width))
  {
    var s := Print(n);
    PrintValue(n);
    LeadingZeros(seq(if |s| < width then width - |s| else 0, _ => '0'), s);
  }

  lemma PaddedLength(n: nat, width: nat)
    requires width > 0 && n < Pow10(width)
    ensures |PrintPadded(n, width)| == width
  {
    PrintLength(n, width);
  }

  lemma ParseDigits(s: string)
    requires s != "" && AllDigits(s) && Value(s) <= MAX_INT64
    ensures ParseInt64(s) == Some(Value(s))
  {
    assert s[0] in s;
  }

  /** Digits are read when their number fits 64 bits. */
  lemma ParsesDigits(s: string)
    requires s != "" && AllDigits(s)
    ensures ParseInt64(s) == if Value(s) <= 9_223_372_036_854_775_807 then Some(Value(s)) else None
  {
    assert s[0] in s;
  }

  /** A minus sign allows for one number more. */
  lemma ParsesNegative(s: string)
    ensures var v: int := Value(s);
            ParseInt64("-" + s) == if s != "" && AllDigits(s) && v <= 9_223_372_036_854_775_808 then Some(-v) else None
  {
    var minus := "-" + s;
    assert minus[0] == '-' && minus[1..] == s;
  }

  /** Nothing else without a sign is a number. */
  lemma ParsesNothingElse(s: string)
    requires s == "" || (!AllDigits(s) && s[0] != '-' && s[0] != '+')
    ensures ParseInt64(s) == None
  {
  }

  lemma PrintTwo(n: nat, high: string, low: char)
    requires n >= 10 && Print(n / 10) == high && Digit(n % 10) == low
    ensures Print(n) == high + [low]
  {
  }

  /** Some numbers as they are written. */
  lemma WrittenNumbers()
    ensures Print(0) == "0" && Print(190) == "190" && Print(7392) == "7392" && PrintPadded(7392, 5) == "07392"
  {
    assert Print(1) == "1" && Print(7) == "7";
    PrintTwo(19, "1", '9');
    PrintTwo(190, "19", '0');
    PrintTwo(73, "7", '3');
    PrintTwo(739, "73", '9');
    PrintTwo(7392, "739", '2');
    assert seq(1, _ => '0') == "0";
  }
}
