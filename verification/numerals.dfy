/**
  Digit strings: Python's `int(s, 16)` on plain hex text, `str(n)` for a
  natural number, and the suffix slice `s[-k:]`.
*/
module Numerals {
  import opened Wrappers

  predicate IsDecDigit(ch: char) { '0' <= ch <= '9' }

  predicate IsHexDigit(ch: char) { IsDecDigit(ch) || 'a' <= ch <= 'f' || 'A' <= ch <= 'F' }

  function DigitValue(ch: char): (d: nat)
    requires IsHexDigit(ch)
    ensures d < 16
    ensures IsDecDigit(ch) <==> d < 10
  {
    if IsDecDigit(ch) then ch as int - '0' as int
    else if 'a' <= ch <= 'f' then ch as int - 'a' as int + 10
    else ch as int - 'A' as int + 10
  }

  /** Every character of `s` is a digit of the given base (10 or 16). */
  predicate AllDigits(s: string, base: nat)
  {
    forall i :: 0 <= i < |s| ==> IsHexDigit(s[i]) && DigitValue(s[i]) < base
  }

  function Pow(base: nat, k: nat): (p: nat)
    requires base >= 1
    ensures p >= 1
  {
    if k == 0 then 1 else base * Pow(base, k - 1)
  }

  /** The number a digit string denotes, most significant digit first. */
  function Value(s: string, base: nat): nat
    requires AllDigits(s, base)
    decreases |s|
  {
    if |s| == 0 then 0 else Value(s[..|s| - 1], base) * base + DigitValue(s[|s| - 1])
  }

  /** Python's `int(s, 16)` on plain hex text: fails on empty text or a non-hex character. */
  function ParseHex(s: string): (r: Option<nat>)
    ensures r.Some? <==> |s| > 0 && AllDigits(s, 16)
    ensures r.Some? ==> r.value == Value(s, 16)
  {
    if |s| > 0 && AllDigits(s, 16) then Some(Value(s, 16)) else None
  }

  function DecChar(d: nat): (ch: char)
    requires d < 10
    ensures IsDecDigit(ch) && DigitValue(ch) == d
  {
    ('0' as int + d) as char
  }

  /** Python's `str(n)` for a natural number: its decimal digits, no sign, no leading zero. */
  function Decimal(n: nat): (s: string)
    ensures |s| >= 1
    ensures AllDigits(s, 10)
    ensures Value(s, 10) == n
    ensures |s| > 1 ==> s[0] != '0'
    decreases n
  {
    if n < 10 then [DecChar(n)]
    else
      var s := Decimal(n / 10) + [DecChar(n % 10)];
      assert s[..|s| - 1] == Decimal(n / 10);
      s
  }

  /** Python's `s[-k:]` for `k >= 1`: the last `k` characters, or all of `s`
      when it is shorter. */
  function Suffix(s: string, k: nat): (t: string)
    requires k >= 1
    ensures |t| == if |s| <= k then |s| else k
    ensures forall i :: 0 <= i < |t| ==> t[i] == s[|s| - |t| + i]
  {
    if |s| <= k then s else s[|s| - k..]
  }

  lemma AllDigitsAppend(a: string, b: string, base: nat)
    requires AllDigits(a, base) && AllDigits(b, base)
    ensures AllDigits(a + b, base)
  {
    forall i | 0 <= i < |a + b|
      ensures IsHexDigit((a + b)[i]) && DigitValue((a + b)[i]) < base
    {
      if i < |a| { assert (a + b)[i] == a[i]; } else { assert (a + b)[i] == b[i - |a|]; }
    }
  }

  lemma ShiftDigit(va: nat, p: nat, vb: nat, base: nat, d: nat)
    ensures (va * p + vb) * base + d == va * (base * p) + (vb * base + d)
  {
  }

  lemma {:induction false} ValueAppend(a: string, b: string, base: nat)
    requires base >= 1
    requires AllDigits(a, base) && AllDigits(b, base)
    ensures AllDigits(a + b, base)
    ensures Value(a + b, base) == Value(a, base) * Pow(base, |b|) + Value(b, base)
    decreases |b|
  {
    AllDigitsAppend(a, b, base);
    if |b| == 0 {
      assert a + b == a;
    } else {
      var b' := b[..|b| - 1];
      assert AllDigits(b', base);
      assert (a + b)[..|a + b| - 1] == a + b';
      assert (a + b)[|a + b| - 1] == b[|b| - 1];
      ValueAppend(a, b', base);
      var d := DigitValue(b[|b| - 1]);
      var va, vb', p' := Value(a, base), Value(b', base), Pow(base, |b'|);
      var vab' := Value(a + b', base);
      assert vab' == va * p' + vb';
      assert Value(a + b, base) == vab' * base + d;
      assert Value(b, base) == vb' * base + d;
      assert Pow(base, |b|) == base * p';
      ShiftDigit(va, p', vb', base, d);
    }
  }

  lemma DigitStep(v: nat, p: nat, base: nat, d: nat)
    requires v < p && d < base
    ensures v * base + d < base * p
  {
    assert v + 1 <= p;
    MulMonotone(v + 1, p, base);
  }

  lemma MulMonotone(a: nat, b: nat, m: nat)
    requires a <= b
    ensures a * m <= b * m
  {
  }

  lemma {:induction false} ValueBound(s: string, base: nat)
    requires base >= 1
    requires AllDigits(s, base)
    ensures Value(s, base) < Pow(base, |s|)
    decreases |s|
  {
    if |s| > 0 {
      var s' := s[..|s| - 1];
      assert AllDigits(s', base);
      ValueBound(s', base);
      DigitStep(Value(s', base), Pow(base, |s'|), base, DigitValue(s[|s| - 1]));
    }
  }

  lemma ModOfSplit(x: nat, q: nat, m: nat, r: nat)
    requires m >= 1 && r < m
    requires x == q * m + r
    ensures x % m == r
  {
    var q', r' := x / m, x % m;
    if q' > q {
      MulMonotone(q + 1, q', m);
    } else if q' < q {
      MulMonotone(q' + 1, q, m);
    }
  }

  /** The last `k` digits of a numeral denote its value modulo `base^k`. */
  lemma SuffixValue(s: string, k: nat, base: nat)
    requires base >= 1 && k >= 1
    requires AllDigits(s, base)
    ensures AllDigits(Suffix(s, k), base)
    ensures Value(Suffix(s, k), base) == Value(s, base) % Pow(base, k)
  {
    var t := Suffix(s, k);
    assert AllDigits(t, base) by {
      forall i | 0 <= i < |t| ensures IsHexDigit(t[i]) && DigitValue(t[i]) < base {
        assert t[i] == s[|s| - |t| + i];
      }
    }
    var h := s[..|s| - |t|];
    assert AllDigits(h, base);
    assert s == h + t;
    ValueAppend(h, t, base);
    ValueBound(t, base);
    if |s| <= k {
      assert h == [];
      PowMonotone(base, |s|, k);
      ModOfSplit(Value(s, base), 0, Pow(base, k), Value(t, base));
    } else {
      ModOfSplit(Value(s, base), Value(h, base), Pow(base, k), Value(t, base));
    }
  }

  lemma {:induction false} PowMonotone(base: nat, j: nat, k: nat)
    requires base >= 1 && j <= k
    ensures Pow(base, j) <= Pow(base, k)
    decreases k
  {
    if j < k {
      PowMonotone(base, j, k - 1);
      assert Pow(base, k) == base * Pow(base, k - 1);
    }
  }

  /** Decimal digits are hex digits, so decimal text always passes `int(_, 16)`. */
  lemma DecimalIsHex(s: string)
    requires |s| > 0 && AllDigits(s, 10)
    ensures ParseHex(s).Some?
  {
  }
}
