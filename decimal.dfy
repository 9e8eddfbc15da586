/** Decimal numerals: Python's `str(n)` for n >= 0, `int(s)` on digit strings, and `str.rjust(w, '0')`. */
module Decimal {
  import opened StrOrder

  predicate IsDigit(c: char)
  {
    '0' <= c <= '9'
  }

  predicate AllDigits(s: string)
  {
    forall i :: 0 <= i < |s| ==> IsDigit(s[i])
  }

  /** A string `int` reads as a decimal integer in this model: one or more ASCII digits. */
  predicate IsNumeral(s: string)
  {
    |s| > 0 && AllDigits(s)
  }

  function DigitValue(c: char): nat
    requires IsDigit(c)
  {
    c as nat - '0' as nat
  }

  function DigitChar(d: nat): (c: char)
    requires d < 10
    ensures IsDigit(c) && DigitValue(c) == d
  {
    ('0' as nat + d) as char
  }

  function Pow10(k: nat): nat
  {
    if k == 0 then 1 else 10 * Pow10(k - 1)
  }

  /** `int(s)` for a digit string: most significant digit first, leading zeros ignored. */
  function Value(s: string): (n: nat)
    requires AllDigits(s)
    ensures n < Pow10(|s|)
    decreases |s|
  {
    if |s| == 0 then 0 else Value(s[..|s| - 1]) * 10 + DigitValue(s[|s| - 1])
  }

  /** `str(n)`: the decimal numeral of n, without leading zeros. */
  function Str(n: nat): (s: string)
    ensures IsNumeral(s)
    ensures s[0] == '0' <==> n == 0
    ensures n == 0 ==> |s| == 1
    decreases n
  {
    if n < 10 then [DigitChar(n)] else Str(n / 10) + [DigitChar(n % 10)]
  }

  function Zeros(k: nat): (z: string)
  {
    seq(k, _ => '0')
  }

  /** `s.rjust(width, '0')`: s with zeros added on the left up to `width` characters. */
  function PadLeft(s: string, width: nat): (r: string)
    ensures |r| == if |s| >= width then |s| else width
    ensures r[|r| - |s|..] == s
    ensures forall i :: 0 <= i < |r| - |s| ==> r[i] == '0'
  {
    if |s| >= width then s else Zeros(width - |s|) + s
  }

  /** `str(n).rjust(width, '0')`: a numeral of at least `width` digits. */
  function Padded(n: nat, width: nat): (r: string)
    ensures IsNumeral(r) && |r| >= width
  {
    PadLeft(Str(n), width)
  }

  lemma ValueAppend(s: string, c: char)
    requires AllDigits(s) && IsDigit(c)
    ensures AllDigits(s + [c])
    ensures Value(s + [c]) == Value(s) * 10 + DigitValue(c)
  {
    assert (s + [c])[..|s|] == s;
  }

  /** `int(str(n)) == n`. */
  lemma {:induction false} ValueOfStr(n: nat)
    ensures Value(Str(n)) == n
    decreases n
  {
    if n < 10 {
      assert Str(n)[..0] == [];
    } else {
      ValueOfStr(n / 10);
      ValueAppend(Str(n / 10), DigitChar(n % 10));
    }
  }

  /** `str(int(s)) == s` for a numeral without leading zeros. */
  lemma {:induction false} StrOfValue(s: string)
    requires IsNumeral(s)
    requires |s| == 1 || s[0] != '0'
    ensures Str(Value(s)) == s
    decreases |s|
  {
    var p := s[..|s| - 1];
    assert s == p + [s[|s| - 1]];
    if |s| == 1 {
      assert p == [];
    } else {
      assert p[0] == s[0];
      StrOfValue(p);
      ValueLowerBound(p);
      assert Value(s) / 10 == Value(p);
      assert Value(s) % 10 == DigitValue(s[|s| - 1]);
    }
  }

  /** A numeral without leading zeros is at least 10^(length - 1). */
  lemma {:induction false} ValueLowerBound(s: string)
    requires IsNumeral(s) && s[0] != '0'
    ensures Value(s) >= Pow10(|s| - 1)
    decreases |s|
  {
    if |s| > 1 {
      var p := s[..|s| - 1];
      assert p[0] == s[0];
      ValueLowerBound(p);
    }
  }

  /** The value of a concatenation: the left part is worth 10^|b| per unit. */
  lemma {:induction false} ValueConcat(a: string, b: string)
    requires AllDigits(a) && AllDigits(b)
    ensures AllDigits(a + b)
    ensures Value(a + b) == Value(a) * Pow10(|b|) + Value(b)
    decreases |b|
  {
    if |b| == 0 {
      assert a + b == a;
    } else {
      var q := b[..|b| - 1];
      var c := b[|b| - 1];
      assert a + b == (a + q) + [c];
      assert b == q + [c];
      ValueConcat(a, q);
      ValueAppend(a + q, c);
      ValueAppend(q, c);
      ConcatStep(Value(a), Pow10(|q|), Value(q), DigitValue(c), Value(a + q));
    }
  }

  lemma ConcatStep(va: nat, pq: nat, vq: nat, d: nat, prev: nat)
    requires prev == va * pq + vq
    ensures prev * 10 + d == va * (10 * pq) + (vq * 10 + d)
  {
    assert va * (10 * pq) == (va * pq) * 10;
  }

  /** k copies of p make at least one p. */
  lemma {:induction false} MulAtLeast(k: nat, p: nat)
    requires k >= 1
    ensures k * p >= p
    decreases k
  {
    if k > 1 {
      MulAtLeast(k - 1, p);
      assert k * p == (k - 1) * p + p;
    }
  }

  lemma {:induction false} ValueOfZeros(k: nat)
    ensures AllDigits(Zeros(k)) && Value(Zeros(k)) == 0
    decreases k
  {
    if k > 0 {
      assert Zeros(k)[..k - 1] == Zeros(k - 1);
      ValueOfZeros(k - 1);
    }
  }

  /** `int(str(n).rjust(width, '0')) == n`: padding with zeros keeps the value. */
  lemma PaddedValue(n: nat, width: nat)
    ensures Value(Padded(n, width)) == n
  {
    ValueOfStr(n);
    var s := Str(n);
    if |s| < width {
      var z := Zeros(width - |s|);
      assert Padded(n, width) == z + s;
      ValueOfZeros(width - |s|);
      ValueConcat(z, s);
    } else {
      assert Padded(n, width) == s;
    }
  }

  /** A smaller number never has a longer numeral. */
  lemma {:induction false} StrLengthMonotone(n: nat, m: nat)
    requires n <= m
    ensures |Str(n)| <= |Str(m)|
    decreases n
  {
    if n >= 10 {
      StrLengthMonotone(n / 10, m / 10);
    }
  }

  /** For n <= m, `str(n).rjust(len(str(m)), '0')` is exactly `len(str(m))` characters long. */
  lemma PaddedWidth(n: nat, m: nat)
    requires n <= m
    ensures |Padded(n, |Str(m)|)| == |Str(m)|
  {
    StrLengthMonotone(n, m);
  }

  lemma LeadingDigitDominates(da: nat, db: nat, ra: nat, rb: nat, p: nat)
    requires da < db && ra < p
    ensures da * p + ra < db * p + rb
  {
    MulAtLeast(db - da, p);
    assert db * p == da * p + (db - da) * p;
  }

  /** On digit strings of equal length, Python's string order is the order of their values. */
  lemma {:induction false} EqualWidthOrder(a: string, b: string)
    requires AllDigits(a) && AllDigits(b) && |a| == |b|
    ensures Less(a, b) <==> Value(a) < Value(b)
    decreases |a|
  {
    if |a| > 0 {
      var a', b' := a[1..], b[1..];
      assert a == [a[0]] + a' && b == [b[0]] + b';
      ValueConcat([a[0]], a');
      ValueConcat([b[0]], b');
      assert [a[0]][..0] == [] && [b[0]][..0] == [];
      var da, db, p := DigitValue(a[0]), DigitValue(b[0]), Pow10(|a'|);
      assert Value(a) == da * p + Value(a');
      assert Value(b) == db * p + Value(b');
      if a[0] == b[0] {
        EqualWidthOrder(a', b');
      } else if a[0] < b[0] {
        LeadingDigitDominates(da, db, Value(a'), Value(b'), p);
      } else {
        LeadingDigitDominates(db, da, Value(b'), Value(a'), p);
      }
    }
  }

  /** Digit strings of equal length with equal values are the same string. */
  lemma {:induction false} EqualWidthInjective(a: string, b: string)
    requires AllDigits(a) && AllDigits(b) && |a| == |b|
    requires Value(a) == Value(b)
    ensures a == b
    decreases |a|
  {
    if |a| > 0 {
      var a', b' := a[..|a| - 1], b[..|b| - 1];
      assert Value(a') == Value(a) / 10 == Value(b');
      assert DigitValue(a[|a| - 1]) == Value(a) % 10 == DigitValue(b[|b| - 1]);
      EqualWidthInjective(a', b');
      assert a == a' + [a[|a| - 1]] && b == b' + [b[|b| - 1]];
    }
  }
}
