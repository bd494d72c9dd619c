/** JavaScript strings: sequences of UTF-16 code units. */
module Text {

  type Unit = u: int | 0 <= u < 0x1_0000

  type Text = seq<Unit>

  /** An ASCII literal as a JavaScript string. */
  function Ascii(s: string): (t: Text)
    requires forall i :: 0 <= i < |s| ==> s[i] < 128 as char
    ensures |t| == |s|
    ensures forall i :: 0 <= i < |s| ==> t[i] == s[i] as int
  {
    seq(|s|, i requires 0 <= i < |s| => s[i] as int)
  }

  predicate IsHigh(u: Unit) { 0xD800 <= u < 0xDC00 }

  predicate IsLow(u: Unit) { 0xDC00 <= u < 0xE000 }

  predicate IsSurrogate(u: Unit) { 0xD800 <= u < 0xE000 }

  /** The text opens with a surrogate pair, which is one code point. */
  predicate StartsWithPair(t: Text) {
    |t| >= 2 && IsHigh(t[0]) && IsLow(t[1])
  }

  /** The number of code units of the code point the text opens with. */
  function Step(t: Text): (n: nat)
    requires t != []
    ensures 1 <= n <= |t|
  {
    if StartsWithPair(t) then 2 else 1
  }

  /** Every surrogate is half of a pair: the text denotes Unicode scalar values only. */
  predicate WellFormed(t: Text) {
    t == [] || ((StartsWithPair(t) || !IsSurrogate(t[0])) && WellFormed(t[Step(t)..]))
  }

  lemma {:induction false} WellFormedConcat(a: Text, b: Text)
    requires WellFormed(a) && WellFormed(b)
    ensures WellFormed(a + b)
  {
    if a == [] {
      assert a + b == b;
    } else {
      var n := Step(a);
      assert Step(a + b) == n && (a + b)[n..] == a[n..] + b;
      WellFormedConcat(a[n..], b);
    }
  }

  lemma {:induction false} PlainIsWellFormed(t: Text)
    requires forall i :: 0 <= i < |t| ==> !IsSurrogate(t[i])
    ensures WellFormed(t)
  {
    if t != [] {
      PlainIsWellFormed(t[1..]);
    }
  }

  /** Two texts free of stop units agree when they agree up to the first stop unit. */
  lemma CutAtStop(a: Text, b: Text, x: Text, y: Text, stops: set<Unit>)
    requires forall i :: 0 <= i < |a| ==> a[i] !in stops
    requires forall i :: 0 <= i < |b| ==> b[i] !in stops
    requires x == [] || x[0] in stops
    requires y == [] || y[0] in stops
    requires a + x == b + y
    ensures a == b && x == y
  {
    var w := a + x;
    assert |a| < |w| ==> w[|a|] in stops;
    assert |b| < |w| ==> w[|b|] in stops;
    assert |a| <= |b|;
    assert |b| <= |a|;
    assert a == w[..|a|] && b == w[..|b|];
    assert x == w[|a|..] && y == w[|b|..];
  }

  lemma Regroup<T>(a: seq<T>, b: seq<T>, c: seq<T>, d: seq<T>)
    ensures a + b + c + d == a + (b + c + d)
    ensures a + b + c == a + (b + c)
  {
  }
}
