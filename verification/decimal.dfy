/** Decimal text of unsigned integers: the `{}` and `{:0N}` formatting the
    program uses to build lookup keys, and the digit value its parsers read. */
module Decimal {

  predicate IsDigit(c: char) {
    '0' <= c <= '9'
  }

  predicate AllDigits(s: string) {
    forall i | 0 <= i < |s| :: IsDigit(s[i])
  }

  function DigitChar(d: nat): (c: char)
    requires d < 10
    ensures IsDigit(c)
  {
    (('0' as int) + d) as char
  }

  function DigitValue(c: char): (d: nat)
    requires IsDigit(c)
    ensures d < 10 && DigitChar(d) == c
  {
    (c as int) - ('0' as int)
  }

  /** The number a string of decimal digits denotes, most significant digit first. */
  function Value(s: string): nat
    requires AllDigits(s)
  {
    if |s| == 0 then 0 else Value(s[..|s| - 1]) * 10 + DigitValue(s[|s| - 1])
  }

  /** The shortest decimal text of `n` (Rust's `{}` for an unsigned integer). */
  function NatToString(n: nat): (s: string)
    ensures 1 <= |s| && AllDigits(s)
    ensures Value(s) == n
    ensures |s| == 1 <==> n < 10
  {
    if n < 10 then [DigitChar(n)]
    else
      var p := NatToString(n / 10);
      var s := p + [DigitChar(n % 10)];
      assert s[..|s| - 1] == p;
      s
  }

  /** Two numbers have the same text only if they are equal. */
  lemma NatToStringInjective(a: nat, b: nat)
    ensures NatToString(a) == NatToString(b) <==> a == b
  {
  }

  /** Rust's `{:0w}`: the decimal text left-padded with zeros to width `w`. */
  function ZeroPadded(n: nat, w: nat): (s: string)
    ensures AllDigits(s) && Value(s) == n
    ensures |s| == if |NatToString(n)| >= w then |NatToString(n)| else w
  {
    var t := NatToString(n);
    if |t| >= w then t
    else
      var s := Zeros(w - |t|) + t;
      LeadingZerosValue(w - |t|, t);
      s
  }

  function Zeros(k: nat): (z: string)
    ensures |z| == k && AllDigits(z)
    ensures forall i | 0 <= i < k :: z[i] == '0'
  {
    seq(k, _ => '0')
  }

  lemma {:induction false} LeadingZerosValue(k: nat, t: string)
    requires AllDigits(t)
    ensures AllDigits(Zeros(k) + t) && Value(Zeros(k) + t) == Value(t)
    decreases |t|
  {
    var s := Zeros(k) + t;
    if |t| == 0 {
      assert s == Zeros(k);
      ZerosValue(k);
    } else {
      assert s[..|s| - 1] == Zeros(k) + t[..|t| - 1];
      LeadingZerosValue(k, t[..|t| - 1]);
    }
  }

  lemma {:induction false} ZerosValue(k: nat)
    ensures Value(Zeros(k)) == 0
  {
    if k > 0 {
      assert Zeros(k)[..k - 1] == Zeros(k - 1);
      ZerosValue(k - 1);
    }
  }

  /** A separator that occurs in neither half splits a joined string uniquely. */
  lemma {:induction false} JoinedPartsUnique(x: string, y: string, x': string, y': string, sep: char)
    requires sep !in x && sep !in x'
    requires x + [sep] + y == x' + [sep] + y'
    ensures x == x' && y == y'
  {
    var s := x + [sep] + y;
    if |x| < |x'| {
      SeparatorAt(x, y, sep);
      assert false;
    } else if |x'| < |x| {
      SeparatorAt(x', y', sep);
      assert false;
    }
    assert x == s[..|x|];
    assert x' == (x' + [sep] + y')[..|x'|];
    assert y == s[|x| + 1..];
    assert y' == (x' + [sep] + y')[|x'| + 1..];
  }

  lemma SeparatorAt(x: string, y: string, sep: char)
    ensures (x + [sep] + y)[|x|] == sep
    ensures forall i | 0 <= i < |x| :: (x + [sep] + y)[i] == x[i]
  {
  }

  /** Digits never include a non-digit separator. */
  lemma DigitsExclude(s: string, c: char)
    requires AllDigits(s) && !IsDigit(c)
    ensures c !in s
  {
  }
}
