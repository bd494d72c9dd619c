/** Decimal digits as JavaScript prints them, read back exactly. */
module Decimal {
  import opened Text

  const ZERO: Unit := 48
  const POINT: Unit := 46

  function Pow10(k: nat): (p: nat)
    ensures p >= 1
  {
    if k == 0 then 1 else 10 * Pow10(k - 1)
  }

  predicate IsDigit(u: Unit) { 48 <= u < 58 }

  predicate AllDigits(t: Text) {
    forall i :: 0 <= i < |t| ==> IsDigit(t[i])
  }

  /** `BigInt.prototype.toString` on a non-negative integer. */
  function Digits(n: nat): (t: Text)
    ensures |t| > 0 && AllDigits(t)
  {
    if n < 10 then [48 + n] else Digits(n / 10) + [48 + n % 10]
  }

  /** The integer a digit string denotes. */
  function Read(t: Text): nat
    requires AllDigits(t)
  {
    if t == [] then 0 else 10 * Read(t[..|t| - 1]) + (t[|t| - 1] - 48)
  }

  lemma {:induction false} ReadOfDigits(n: nat)
    ensures Read(Digits(n)) == n
  {
    if n >= 10 {
      ReadOfDigits(n / 10);
      assert Digits(n)[..|Digits(n)| - 1] == Digits(n / 10);
    }
  }

  lemma {:induction false} DigitsHaveNoLeadingZero(n: nat)
    requires n > 0
    ensures Digits(n)[0] != ZERO
  {
    if n >= 10 {
      DigitsHaveNoLeadingZero(n / 10);
    }
  }

  lemma {:induction false} DigitsLength(n: nat, k: nat)
    ensures |Digits(n)| <= k <==> k >= 1 && n < Pow10(k)
  {
    if n < 10 {
      if k >= 2 { Pow10Grows(1, k); }
      assert Pow10(1) == 10 * Pow10(0) == 10;
    } else if k >= 1 {
      DigitsLength(n / 10, k - 1);
      assert Pow10(k) == 10 * Pow10(k - 1);
    }
  }

  lemma {:induction false} Pow10Grows(j: nat, k: nat)
    requires j <= k
    ensures Pow10(j) <= Pow10(k)
    decreases k
  {
    if j < k { Pow10Grows(j, k - 1); }
  }

  function Zeros(k: nat): (t: Text)
    ensures |t| == k && AllDigits(t)
  {
    seq(k, i => ZERO)
  }

  /** `String.prototype.padStart(width, "0")`. */
  function PadStart(t: Text, width: nat): (p: Text)
    ensures |p| == if |t| < width then width else |t|
    ensures AllDigits(t) ==> AllDigits(p)
  {
    if |t| < width then Zeros(width - |t|) + t else t
  }

  lemma {:induction false} ReadConcat(a: Text, b: Text)
    requires AllDigits(a) && AllDigits(b)
    ensures AllDigits(a + b)
    ensures Read(a + b) == Read(a) * Pow10(|b|) + Read(b)
  {
    if b == [] {
      assert a + b == a;
    } else {
      var c := b[..|b| - 1];
      assert (a + b)[..|a + b| - 1] == a + c;
      ReadConcat(a, c);
      assert Pow10(|b|) == 10 * Pow10(|c|);
      assert Read(a) * (10 * Pow10(|c|)) == 10 * (Read(a) * Pow10(|c|));
    }
  }

  lemma {:induction false} ReadZeros(k: nat)
    ensures Read(Zeros(k)) == 0
  {
    if k > 0 {
      assert Zeros(k)[..k - 1] == Zeros(k - 1);
      ReadZeros(k - 1);
    }
  }

  /** A number followed by k zeros. */
  function Scaled(n: nat, k: nat): nat {
    if k == 0 then n else 10 * Scaled(n, k - 1)
  }

  lemma {:induction false} TrailingZerosScale(t: Text, k: nat)
    requires AllDigits(t)
    ensures Read(t + Zeros(k)) == Scaled(Read(t), k)
  {
    if k == 0 {
      assert t + Zeros(0) == t;
    } else {
      TrailingZerosScale(t, k - 1);
      var w := t + Zeros(k);
      assert w[|w| - 1] == ZERO;
      assert w[..|w| - 1] == t + Zeros(k - 1);
      assert Read(w) == 10 * Read(w[..|w| - 1]);
    }
  }

  lemma LeadingZerosVanish(k: nat, t: Text)
    requires AllDigits(t)
    ensures Read(Zeros(k) + t) == Read(t)
  {
    ReadConcat(Zeros(k), t);
    ReadZeros(k);
  }

  lemma ReadOfPadded(t: Text, width: nat)
    requires AllDigits(t)
    ensures Read(PadStart(t, width)) == Read(t)
  {
    if |t| < width {
      LeadingZerosVanish(width - |t|, t);
    }
  }

  /** Digit strings of one length that denote the same number are the same. */
  lemma {:induction false} ReadIsInjective(a: Text, b: Text)
    requires AllDigits(a) && AllDigits(b) && |a| == |b| && Read(a) == Read(b)
    ensures a == b
  {
    if a != [] {
      var n := |a| - 1;
      assert a[n] == b[n];
      ReadIsInjective(a[..n], b[..n]);
      assert a == a[..n] + [a[n]] && b == b[..n] + [b[n]];
    }
  }

  lemma {:induction false} ReadBounds(t: Text)
    requires AllDigits(t)
    ensures Read(t) < Pow10(|t|)
    ensures t != [] && t[0] != ZERO ==> Pow10(|t| - 1) <= Read(t)
  {
    if t != [] {
      ReadBounds(t[..|t| - 1]);
    }
  }

  /** A longer digit string with no leading zero denotes a larger number. */
  lemma LongerIsLarger(a: Text, b: Text)
    requires AllDigits(a) && AllDigits(b) && |a| > |b| && a[0] != ZERO
    ensures Read(a) > Read(b)
  {
    ReadBounds(a);
    ReadBounds(b);
    Pow10Grows(|b|, |a| - 1);
  }
}
