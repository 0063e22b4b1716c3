/** Decimal digit strings: the unsigned decimal rendering of a number and its inverse. */
module Decimal {
  import opened Text

  predicate AllDigits(s: string)
  {
    forall i :: 0 <= i < |s| ==> IsAsciiDigit(s[i])
  }

  function DigitChar(d: nat): (c: char)
    requires d < 10
    ensures IsAsciiDigit(c)
  {
    ('0' as int + d) as char
  }

  function DigitValue(c: char): (d: nat)
    requires IsAsciiDigit(c)
    ensures d < 10 && DigitChar(d) == c
  {
    c as int - '0' as int
  }

  /** The decimal rendering of `n`, without leading zeros. */
  function Dec(n: nat): (r: string)
    ensures 1 <= |r| && AllDigits(r)
  {
    if n < 10 then [DigitChar(n)] else Dec(n / 10) + [DigitChar(n % 10)]
  }

  /** The value of a string of decimal digits (most significant first). */
  function DigitsValue(s: string): nat
    requires AllDigits(s)
  {
    if s == [] then 0 else DigitsValue(s[..|s| - 1]) * 10 + DigitValue(s[|s| - 1])
  }

  function Zeros(k: nat): (r: string)
    ensures |r| == k && AllDigits(r)
  {
    seq(k, _ => '0')
  }

  /** Left-pads `s` with '0' up to `width` characters. */
  function PadLeft(s: string, width: nat): (r: string)
    requires AllDigits(s)
    ensures AllDigits(r) && |r| == if |s| < width then width else |s|
  {
    if |s| < width then Zeros(width - |s|) + s else s
  }

  function Pow10(k: nat): (r: nat)
    ensures r >= 1
  {
    if k == 0 then 1 else 10 * Pow10(k - 1)
  }

  lemma {:induction false} DecValue(n: nat)
    ensures DigitsValue(Dec(n)) == n
  {
    if n >= 10 {
      DecValue(n / 10);
      var s := Dec(n);
      assert s[..|s| - 1] == Dec(n / 10);
    }
  }

  lemma {:induction false} DecLength(n: nat, w: nat)
    requires 1 <= w && n < Pow10(w)
    ensures |Dec(n)| <= w
  {
    if n >= 10 {
      assert w >= 2;
      assert n / 10 < Pow10(w - 1);
      DecLength(n / 10, w - 1);
    }
  }

  lemma {:induction false} ZerosThenDigitsValue(k: nat, s: string)
    requires AllDigits(s)
    ensures DigitsValue(Zeros(k) + s) == DigitsValue(s)
    decreases |s|
  {
    var t := Zeros(k) + s;
    if s == [] {
      ZerosValue(k);
      assert t == Zeros(k);
    } else {
      assert t[..|t| - 1] == Zeros(k) + s[..|s| - 1];
      ZerosThenDigitsValue(k, s[..|s| - 1]);
    }
  }

  lemma {:induction false} ZerosValue(k: nat)
    ensures DigitsValue(Zeros(k)) == 0
  {
    if k > 0 {
      assert Zeros(k)[..k - 1] == Zeros(k - 1);
      ZerosValue(k - 1);
    }
  }

  /** Zero-padding the rendering of `n` keeps its value. */
  lemma PadLeftDecValue(n: nat, width: nat)
    ensures DigitsValue(PadLeft(Dec(n), width)) == n
  {
    DecValue(n);
    if |Dec(n)| < width {
      ZerosThenDigitsValue(width - |Dec(n)|, Dec(n));
    }
  }

  /** A digit string of value zero is all zeros. */
  lemma {:induction false} ValueZeroIsZeros(s: string)
    requires AllDigits(s) && DigitsValue(s) == 0
    ensures s == Zeros(|s|)
  {
    if s != [] {
      var u := s[..|s| - 1];
      assert DigitsValue(u) == 0 && DigitValue(s[|s| - 1]) == 0;
      ValueZeroIsZeros(u);
      forall i | 0 <= i < |s| ensures s[i] == '0' {
        if i < |s| - 1 { assert s[i] == u[i]; }
      }
    }
  }

  /**
   * A fixed-width digit string is the zero-padded rendering of its own value: rendering
   * inverts reading for every width.
   */
  lemma {:induction false} PadLeftDecOfValue(t: string)
    requires 1 <= |t| && AllDigits(t)
    ensures PadLeft(Dec(DigitsValue(t)), |t|) == t
  {
    var u, c := t[..|t| - 1], t[|t| - 1];
    assert t == u + [c];
    var v', v := DigitsValue(u), DigitsValue(t);
    assert v == v' * 10 + DigitValue(c);
    if v' == 0 {
      assert Dec(v) == [c];
      if u != [] {
        ValueZeroIsZeros(u);
      }
    } else {
      assert v / 10 == v' && v % 10 == DigitValue(c);
      assert Dec(v) == Dec(v') + [c];
      PadLeftDecOfValue(u);
      if |Dec(v')| < |u| {
        assert PadLeft(Dec(v), |t|) == Zeros(|u| - |Dec(v')|) + Dec(v') + [c];
      }
    }
  }

  /** Zero-padded renderings of two numbers to one width are equal only for equal numbers. */
  lemma PadLeftDecInjective(m: nat, n: nat, width: nat)
    requires PadLeft(Dec(m), width) == PadLeft(Dec(n), width)
    ensures m == n
  {
    PadLeftDecValue(m, width);
    PadLeftDecValue(n, width);
  }

  lemma {:induction false} DigitsValueBound(s: string)
    requires AllDigits(s)
    ensures DigitsValue(s) < Pow10(|s|)
  {
    if s != [] {
      DigitsValueBound(s[..|s| - 1]);
    }
  }
}
