// Decimal text of natural numbers, as the server writes and reads it.
module Decimal {

  datatype Option<+T> = None | Some(value: T)

  predicate IsDigit(c: char) { '0' <= c <= '9' }

  predicate AllDigits(s: string) { forall i :: 0 <= i < |s| ==> IsDigit(s[i]) }

  function DigitValue(c: char): nat
    requires IsDigit(c)
  {
    c as int - '0' as int
  }

  function DigitChar(d: nat): char
    requires d < 10
  {
    ('0' as int + d) as char
  }

  /** The number a run of digits writes; the empty run reads as 0. */
  function Value(s: string): nat
    requires AllDigits(s)
  {
    if s == [] then 0 else Value(s[..|s| - 1]) * 10 + DigitValue(s[|s| - 1])
  }

  /** The shortest decimal text of n (strconv.Itoa). */
  function Digits(n: nat): (s: string)
    ensures s != [] && AllDigits(s)
  {
    if n < 10 then [DigitChar(n)] else Digits(n / 10) + [DigitChar(n % 10)]
  }

  /** The last `width` decimal digits of n, zero-padded (time.Format's fields). */
  function Padded(n: nat, width: nat): (s: string)
    ensures |s| == width && AllDigits(s)
  {
    if width == 0 then [] else Padded(n / 10, width - 1) + [DigitChar(n % 10)]
  }

  function Pow10(w: nat): (p: nat)
    ensures p > 0
  {
    if w == 0 then 1 else 10 * Pow10(w - 1)
  }

  lemma {:induction false} DigitsValue(n: nat)
    ensures Value(Digits(n)) == n
  {
    if n >= 10 {
      DigitsValue(n / 10);
      assert Digits(n)[..|Digits(n)| - 1] == Digits(n / 10);
    }
  }

  lemma PaddedMore(n: nat, width: nat)
    requires width > 0
    ensures Padded(n, width) == Padded(n / 10, width - 1) + [DigitChar(n % 10)]
  {
  }

  lemma PaddedNothing(n: nat)
    ensures Value(Padded(n, 0)) == 0 && Pow10(0) == 1
  {
  }

  lemma ValueMore(s: string, d: nat)
    requires AllDigits(s) && d < 10
    ensures AllDigits(s + [DigitChar(d)]) && Value(s + [DigitChar(d)]) == Value(s) * 10 + d
  {
    assert (s + [DigitChar(d)])[..|s|] == s;
  }

  lemma {:induction false} PaddedValue(n: nat, width: nat)
    requires n < Pow10(width)
    ensures Value(Padded(n, width)) == n
  {
    if width > 0 {
      PaddedValue(n / 10, width - 1);
      hide Padded, Value, Pow10;
      PaddedMore(n, width);
      ValueMore(Padded(n / 10, width - 1), n % 10);
    } else {
      PaddedNothing(n);
    }
  }

  lemma {:induction false} ValueBound(s: string)
    requires AllDigits(s)
    ensures Value(s) < Pow10(|s|)
  {
    if s != [] { ValueBound(s[..|s| - 1]); }
  }

  /** Text of one width is determined by its value. */
  lemma {:induction false} ValuePadded(s: string)
    requires AllDigits(s)
    ensures Padded(Value(s), |s|) == s
  {
    if s != [] {
      ValuePadded(s[..|s| - 1]);
      assert s == s[..|s| - 1] + [s[|s| - 1]];
    }
  }

  /** Digits writes no leading zero, and is the only text of its value that does not. */
  lemma {:induction false} ValueDigits(s: string)
    requires AllDigits(s) && s != []
    ensures Digits(Value(s)) == s <==> s == "0" || s[0] != '0'
  {
    var front := s[..|s| - 1];
    if |s| == 1 {
      assert front == [];
    } else {
      var last := s[|s| - 1];
      assert s == front + [last] && s[0] == front[0];
      ValueDigits(front);
      if front[0] == '0' {
        NoLeadingZero(Value(s));
        if Value(front) == 0 { DigitsOne(DigitValue(last)); }
      } else {
        LeadingNonZero(front);
        DigitsMore(Value(front), last);
      }
    }
  }

  lemma DigitsOne(d: nat)
    requires d < 10
    ensures |Digits(d)| == 1
  {
  }

  lemma DigitsMore(n: nat, last: char)
    requires n > 0 && IsDigit(last)
    ensures Digits(n * 10 + DigitValue(last)) == Digits(n) + [last]
  {
  }

  lemma {:induction false} LeadingNonZero(s: string)
    requires AllDigits(s) && s != [] && s[0] != '0'
    ensures Value(s) > 0
  {
    if |s| > 1 { LeadingNonZero(s[..|s| - 1]); }
  }

  lemma {:induction false} NoLeadingZero(n: nat)
    ensures Digits(n) == "0" || Digits(n)[0] != '0'
    ensures n >= 10 ==> Digits(n)[0] != '0'
  {
    if n >= 10 { NoLeadingZero(n / 10); }
  }

  // ----- Order of text

  /** Byte-wise order of strings, as Go's `<` compares them. */
  predicate TextLess(a: string, b: string) {
    b != [] && (a == [] || a[0] < b[0] || (a[0] == b[0] && TextLess(a[1..], b[1..])))
  }

  lemma {:induction false} TextLessPrefix(p: string, a: string, b: string)
    ensures TextLess(p + a, p + b) == TextLess(a, b)
  {
    if p == [] {
      assert p + a == a && p + b == b;
    } else {
      assert (p + a)[1..] == p[1..] + a && (p + b)[1..] == p[1..] + b;
      TextLessPrefix(p[1..], a, b);
    }
  }

  /** Texts of one width whose heads differ are ordered by their heads. */
  lemma {:induction false} TextLessHead(p: string, q: string, a: string, b: string)
    requires |p| == |q| && p != q
    ensures TextLess(p + a, q + b) == TextLess(p, q)
  {
    assert (p + a)[1..] == p[1..] + a && (q + b)[1..] == q[1..] + b;
    assert p == [p[0]] + p[1..] && q == [q[0]] + q[1..];
    if p[0] == q[0] { TextLessHead(p[1..], q[1..], a, b); }
  }

  /** Zero-padded numbers of one width compare as text exactly as they do as numbers. */
  lemma {:induction false} PaddedOrder(m: nat, n: nat, width: nat)
    requires m < Pow10(width) && n < Pow10(width)
    ensures TextLess(Padded(m, width), Padded(n, width)) <==> m < n
  {
    if width > 0 {
      var p, q := Padded(m / 10, width - 1), Padded(n / 10, width - 1);
      PaddedOrder(m / 10, n / 10, width - 1);
      if m / 10 == n / 10 {
        TextLessPrefix(p, [DigitChar(m % 10)], [DigitChar(n % 10)]);
      } else {
        PaddedValue(m / 10, width - 1);
        PaddedValue(n / 10, width - 1);
        TextLessHead(p, q, [DigitChar(m % 10)], [DigitChar(n % 10)]);
      }
    }
  }
}
