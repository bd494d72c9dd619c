/**
 Finite JavaScript numbers and how they print.  A number is held as the shortest decimal that names
 it: its digits, with no zero at either end, times a power of ten, and a sign; both zeros are the
 number without digits.  Printing follows Number::toString, section 6.1.6.1.20 of ECMA-262.
 */
module Numbers {
  import opened Text
  import opened Decimal
  import opened Wrappers

  datatype Scientific = Scientific(negative: bool, digits: Text, exponent: int)

  predicate NoZeroAtEnds(d: Text) {
    d != [] ==> d[0] != ZERO && d[|d| - 1] != ZERO
  }

  predicate Normal(x: Scientific) {
    AllDigits(x.digits) && NoZeroAtEnds(x.digits) && (x.digits == [] ==> x == Scientific(false, [], 0))
  }

  type Number = x: Scientific | Normal(x) witness Scientific(false, [], 0)

  const NOUGHT: Number := Scientific(false, [], 0)

  /** The exact value of a number. */
  function ValueOf(x: Number): real {
    var m := if x.negative then -1 * Read(x.digits) else Read(x.digits);
    if x.exponent >= 0
    then m as real * Pow10(x.exponent) as real
    else m as real / Pow10(-x.exponent) as real
  }

  lemma MirroredProduct(m: real, d: real)
    requires d > 0.0
    ensures (-m) * d == -(m * d) && (-m) / d == -(m / d) && m / d * d == m
  {
  }

  /** A negative number is worth the negative of its digits' worth. */
  lemma SignMirrorsValue(x: Number)
    requires x.negative
    ensures ValueOf(x) == -ValueOf(x.(negative := false))
  {
    var m := Read(x.digits) as real;
    assert (-1 * Read(x.digits)) as real == -m;
    MirroredProduct(m, Pow10(if x.exponent >= 0 then x.exponent else -x.exponent) as real);
  }

  lemma CastProduct(a: nat, b: nat)
    ensures (a * b) as real == a as real * b as real
  {
  }

  /** A positive one is worth its digits followed by zeros, */
  lemma ZerosMultiply(x: Number)
    requires !x.negative && x.exponent >= 0
    ensures ValueOf(x) == Scaled(Read(x.digits), x.exponent) as real
  {
    ScaledIsProduct(Read(x.digits), x.exponent);
    CastProduct(Read(x.digits), Pow10(x.exponent));
  }

  /** or divided by a power of ten. */
  lemma PlacesDivide(x: Number)
    requires !x.negative && x.exponent < 0
    ensures ValueOf(x) * Scaled(1, -x.exponent) as real == Read(x.digits) as real
  {
    ScaledIsProduct(1, -x.exponent);
    MirroredProduct(Read(x.digits) as real, Pow10(-x.exponent) as real);
  }

  lemma {:induction false} ScaledIsProduct(n: nat, k: nat)
    ensures Scaled(n, k) == n * Pow10(k)
  {
    if k > 0 { ScaledIsProduct(n, k - 1); }
  }

  const MINUS: Unit := 45
  const PLUS: Unit := 43
  const EXPONENT: Unit := 101

  /** Digits times a power of ten, with the point, zeros or exponent that calls for. */
  function Placed(d: Text, e: int): Text
    requires d != []
  {
    var k := |d|;
    var n := k + e;
    if k <= n <= 21 then d + Zeros(n - k)
    else if 0 < n <= 21 then d[..n] + [POINT] + d[n..]
    else if -6 < n <= 0 then [ZERO, POINT] + Zeros(-n) + d
    else d[..1] + ((if k == 1 then [] else [POINT] + d[1..]) + PowerMark(n - 1))
  }

  function PowerMark(p: int): (t: Text)
    ensures t != [] && t[0] == EXPONENT
  {
    [EXPONENT, if p < 0 then MINUS else PLUS] + Digits(if p < 0 then -p else p)
  }

  function NumberText(x: Number): (t: Text) {
    if x.digits == [] then [ZERO]
    else (if x.negative then [MINUS] else []) + Placed(x.digits, x.exponent)
  }

  // The parts of a printed number: integer digits, fraction digits, exponent.
  datatype Layout = Layout(whole: Text, fraction: Text, power: Option<int>) {
    predicate Valid() {
      whole != [] && AllDigits(whole) && AllDigits(fraction)
    }

    function Tail(): Text {
      (if fraction == [] then [] else [POINT] + fraction) + PowerText()
    }

    function PowerText(): Text {
      match power
      case None => []
      case Some(p) => PowerMark(p)
    }

    function Render(): Text { whole + Tail() }

    function Power(): int {
      (if power.None? then 0 else power.value) - |fraction|
    }
  }

  function LaidOut(d: Text, e: int): (l: Layout)
    requires d != [] && AllDigits(d)
    ensures l.Valid()
  {
    var k := |d|;
    var n := k + e;
    if k <= n <= 21 then Layout(d + Zeros(n - k), [], None)
    else if 0 < n <= 21 then Layout(d[..n], d[n..], None)
    else if -6 < n <= 0 then Layout([ZERO], Zeros(-n) + d, None)
    else Layout(d[..1], d[1..], Some(n - 1))
  }

  lemma RenderPlain(whole: Text, fraction: Text)
    ensures Layout(whole, fraction, None).Render() == if fraction == [] then whole else whole + [POINT] + fraction
  {
    var l := Layout(whole, fraction, None);
    assert l.PowerText() == [];
    if fraction == [] {
      assert l.Tail() == [];
    } else {
      assert l.Tail() == [POINT] + fraction;
      Regroup(whole, [POINT], fraction, []);
    }
  }

  lemma PlacedIsLaidOut(d: Text, e: int)
    requires d != [] && AllDigits(d)
    ensures Placed(d, e) == LaidOut(d, e).Render()
  {
    var k := |d|;
    var n := k + e;
    if k <= n <= 21 {
      RenderPlain(d + Zeros(n - k), []);
    } else if 0 < n <= 21 {
      RenderPlain(d[..n], d[n..]);
    } else if -6 < n <= 0 {
      RenderPlain([ZERO], Zeros(-n) + d);
      assert [ZERO] + [POINT] == [ZERO, POINT];
      Regroup([ZERO, POINT], Zeros(-n), d, []);
    } else {
      assert k == 1 <==> d[1..] == [];
    }
  }

  /** The digits of a layout are the given ones, with zeros around them. */
  lemma LaidOutDigits(d: Text, e: int)
    requires d != [] && AllDigits(d)
    ensures var l, n := LaidOut(d, e), |d| + e;
            l.whole + l.fraction ==
            if |d| <= n <= 21 then d + Zeros(e) else if -6 < n <= 0 then Zeros(1 - n) + d else d
  {
    var l, n := LaidOut(d, e), |d| + e;
    if |d| <= n <= 21 {
      assert l.whole + [] == l.whole;
    } else if -6 < n <= 0 {
      assert [ZERO] + Zeros(-n) == Zeros(1 - n);
      Regroup([ZERO], Zeros(-n), d, []);
    }
  }

  /** How many zeros a layout appends to the digits. */
  function ZerosAdded(d: Text, e: int): nat {
    if 0 <= e && |d| + e <= 21 then e else 0
  }

  /** A number prints as digits, a point and a power that together denote its exact value. */
  lemma LayoutDenotes(d: Text, e: int)
    requires d != [] && AllDigits(d)
    ensures var l, z := LaidOut(d, e), ZerosAdded(d, e);
            && Placed(d, e) == l.Render()
            && AllDigits(l.whole + l.fraction)
            && Read(l.whole + l.fraction) == Scaled(Read(d), z) && l.Power() == e - z
  {
    var n := |d| + e;
    PlacedIsLaidOut(d, e);
    LaidOutDigits(d, e);
    if |d| <= n <= 21 {
      TrailingZerosScale(d, e);
    } else if -6 < n <= 0 {
      LeadingZerosVanish(1 - n, d);
    }
  }

  // ----- From digits to numbers -----

  function NoLeadingZeros(t: Text): (r: Text)
    ensures |r| <= |t| && (r != [] ==> r[0] != ZERO)
    ensures AllDigits(t) ==> AllDigits(r)
  {
    if t != [] && t[0] == ZERO then NoLeadingZeros(t[1..]) else t
  }

  function NoTrailingZeros(t: Text): (r: Text)
    ensures r <= t && (r != [] ==> r[|r| - 1] != ZERO)
  {
    if t != [] && t[|t| - 1] == ZERO then NoTrailingZeros(t[..|t| - 1]) else t
  }

  /** The number that digits times a power of ten name. */
  function Shortest(negative: bool, digits: Text, e: int): (x: Number)
    requires AllDigits(digits)
  {
    var d := NoLeadingZeros(digits);
    var r := NoTrailingZeros(d);
    if r == [] then NOUGHT else Scientific(negative, r, e + (|d| - |r|))
  }

  lemma {:induction false} LeadingZerosGo(k: nat, t: Text)
    ensures NoLeadingZeros(Zeros(k) + t) == NoLeadingZeros(t)
  {
    if k == 0 {
      assert Zeros(0) + t == t;
    } else {
      assert (Zeros(k) + t)[1..] == Zeros(k - 1) + t;
      LeadingZerosGo(k - 1, t);
    }
  }

  lemma {:induction false} TrailingZerosGo(t: Text, k: nat)
    ensures NoTrailingZeros(t + Zeros(k)) == NoTrailingZeros(t)
  {
    if k == 0 {
      assert t + Zeros(0) == t;
    } else {
      var w := t + Zeros(k);
      assert w[|w| - 1] == ZERO && w[..|w| - 1] == t + Zeros(k - 1);
      TrailingZerosGo(t, k - 1);
    }
  }

  lemma {:induction false} TrailingZerosCount(t: Text)
    requires AllDigits(t)
    ensures var r := NoTrailingZeros(t); AllDigits(r) && Read(t) == Scaled(Read(r), |t| - |r|)
  {
    if t != [] && t[|t| - 1] == ZERO { TrailingZerosCount(t[..|t| - 1]); }
  }

  lemma {:induction false} LeadingZerosAreNothing(t: Text)
    requires AllDigits(t)
    ensures Read(NoLeadingZeros(t)) == Read(t)
  {
    if t != [] && t[0] == ZERO {
      LeadingZerosAreNothing(t[1..]);
      assert t == Zeros(1) + t[1..];
      LeadingZerosVanish(1, t[1..]);
    }
  }

  lemma {:induction false} ScaledNothing(k: nat)
    ensures Scaled(0, k) == 0
  {
    if k > 0 { ScaledNothing(k - 1); }
  }

  /** The number named has exactly the value of the digits and the power. */
  lemma ShortestKeepsValue(negative: bool, digits: Text, e: int)
    requires AllDigits(digits)
    ensures var x := Shortest(negative, digits, e);
            if x.digits == [] then Read(digits) == 0
            else x.negative == negative && x.exponent >= e && Read(digits) == Scaled(Read(x.digits), x.exponent - e)
  {
    var d := NoLeadingZeros(digits);
    LeadingZerosAreNothing(digits);
    TrailingZerosCount(d);
    ScaledNothing(|d|);
  }

  lemma PaddedBehind(negative: bool, d: Text, k: nat, p: int)
    requires d != [] && AllDigits(d) && NoZeroAtEnds(d)
    ensures AllDigits(d + Zeros(k)) && Shortest(negative, d + Zeros(k), p) == Scientific(negative, d, p + k)
  {
    TrailingZerosGo(d, k);
    assert (d + Zeros(k))[0] == d[0];
  }

  lemma PaddedInFront(negative: bool, d: Text, k: nat, p: int)
    requires d != [] && AllDigits(d) && NoZeroAtEnds(d)
    ensures AllDigits(Zeros(k) + d) && Shortest(negative, Zeros(k) + d, p) == Scientific(negative, d, p)
  {
    LeadingZerosGo(k, d);
  }

  /** The digits and power a number prints name the number. */
  lemma LayoutNamesNumber(negative: bool, d: Text, e: int)
    requires d != [] && AllDigits(d) && NoZeroAtEnds(d)
    ensures var l := LaidOut(d, e);
            && AllDigits(l.whole + l.fraction)
            && Shortest(negative, l.whole + l.fraction, l.Power()) == Scientific(negative, d, e)
  {
    var l, n := LaidOut(d, e), |d| + e;
    LaidOutDigits(d, e);
    if |d| <= n <= 21 {
      PaddedBehind(negative, d, e, l.Power());
    } else if -6 < n <= 0 {
      PaddedInFront(negative, d, 1 - n, l.Power());
    } else {
      PaddedInFront(negative, d, 0, l.Power());
      assert Zeros(0) + d == d;
    }
  }

  // ----- Different numbers print differently -----

  lemma PowerTextIsInjective(l: Layout, m: Layout)
    requires l.PowerText() == m.PowerText()
    ensures l.power == m.power
  {
    var x, y := l.PowerText(), m.PowerText();
    if l.power.Some? && m.power.Some? {
      var p, q := l.power.value, m.power.value;
      assert x[1] == y[1];
      assert x[2..] == y[2..];
      ReadOfDigits(if p < 0 then -p else p);
      ReadOfDigits(if q < 0 then -q else q);
    }
  }

  lemma TailIsInjective(l: Layout, m: Layout)
    requires l.Valid() && m.Valid()
    requires l.Tail() == m.Tail()
    ensures l.fraction == m.fraction && l.power == m.power
  {
    var x, y := l.PowerText(), m.PowerText();
    assert l.fraction != [] <==> l.Tail() != [] && l.Tail()[0] == POINT;
    assert m.fraction != [] <==> m.Tail() != [] && m.Tail()[0] == POINT;
    if l.fraction != [] {
      assert l.Tail()[1..] == l.fraction + x;
      assert m.Tail()[1..] == m.fraction + y;
      CutAtStop(l.fraction, m.fraction, x, y, {EXPONENT});
    } else {
      assert l.Tail() == x && m.Tail() == y;
    }
    PowerTextIsInjective(l, m);
  }

  lemma RenderIsInjective(l: Layout, m: Layout)
    requires l.Valid() && m.Valid()
    requires l.Render() == m.Render()
    ensures l == m
  {
    CutAtStop(l.whole, m.whole, l.Tail(), m.Tail(), {POINT, EXPONENT});
    TailIsInjective(l, m);
  }

  /** The first unit of a number's digits as printed is a digit. */
  lemma PlacedStartsWithDigit(d: Text, e: int)
    requires d != [] && AllDigits(d) && NoZeroAtEnds(d)
    ensures Placed(d, e) != [] && IsDigit(Placed(d, e)[0]) && Placed(d, e) != [ZERO]
  {
    PlacedIsLaidOut(d, e);
    var l := LaidOut(d, e);
    assert l.Render()[0] == l.whole[0];
    assert l.whole[0] == ZERO ==> |l.Render()| > 1;
  }

  lemma PlacedIsInjective(d: Text, e: int, c: Text, f: int)
    requires d != [] && AllDigits(d) && NoZeroAtEnds(d) && c != [] && AllDigits(c) && NoZeroAtEnds(c)
    requires Placed(d, e) == Placed(c, f)
    ensures d == c && e == f
  {
    PlacedIsLaidOut(d, e);
    PlacedIsLaidOut(c, f);
    RenderIsInjective(LaidOut(d, e), LaidOut(c, f));
    LayoutNamesNumber(false, d, e);
    LayoutNamesNumber(false, c, f);
  }

  /** The first unit of a printed number gives its sign away, and zero prints apart from all others. */
  lemma SignOfText(x: Number)
    ensures NumberText(x) != [] && (x.negative <==> NumberText(x)[0] == MINUS)
    ensures x.digits == [] <==> NumberText(x) == [ZERO]
  {
    if x.digits != [] { PlacedStartsWithDigit(x.digits, x.exponent); }
  }

  /** Different numbers print differently. */
  lemma NumberTextIsInjective(x: Number, y: Number)
    requires NumberText(x) == NumberText(y)
    ensures x == y
  {
    SignOfText(x);
    SignOfText(y);
    if x.digits != [] {
      var t, u := Placed(x.digits, x.exponent), Placed(y.digits, y.exponent);
      var sign: Text := if x.negative then [MINUS] else [];
      assert (sign + t)[|sign|..] == t && (sign + u)[|sign|..] == u;
      PlacedIsInjective(x.digits, x.exponent, y.digits, y.exponent);
    }
  }

  predicate IsNumberUnit(u: Unit) {
    IsDigit(u) || u in {POINT, MINUS, PLUS, EXPONENT}
  }

  predicate NumberUnits(t: Text) {
    forall i :: 0 <= i < |t| ==> IsNumberUnit(t[i])
  }

  lemma NumberUnitsConcat(a: Text, b: Text)
    requires NumberUnits(a) && NumberUnits(b)
    ensures NumberUnits(a + b)
  {
  }

  lemma RenderUnits(l: Layout)
    requires l.Valid()
    ensures NumberUnits(l.Render())
  {
    var f := if l.fraction == [] then [] else [POINT] + l.fraction;
    if l.power.Some? {
      var p := l.power.value;
      assert l.PowerText() == PowerMark(p);
      NumberUnitsConcat([EXPONENT, if p < 0 then MINUS else PLUS], Digits(if p < 0 then -p else p));
    }
    NumberUnitsConcat(f, l.PowerText());
    NumberUnitsConcat(l.whole, l.Tail());
  }

  /** A printed number is a non-empty run of digits, points, signs and exponent marks. */
  lemma NumberTextUnits(x: Number)
    ensures NumberText(x) != []
    ensures IsDigit(NumberText(x)[0]) || NumberText(x)[0] == MINUS
    ensures NumberUnits(NumberText(x))
  {
    if x.digits != [] {
      PlacedStartsWithDigit(x.digits, x.exponent);
      PlacedIsLaidOut(x.digits, x.exponent);
      RenderUnits(LaidOut(x.digits, x.exponent));
      NumberUnitsConcat([MINUS], Placed(x.digits, x.exponent));
    }
  }
}
