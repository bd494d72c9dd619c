/**
 JSON.parse, section 25.5.1 of ECMA-262: the grammar of RFC 8259, a repeated key keeping its place
 and taking its last value, and array indices ahead of other keys.  It reads back exactly the values
 whose keys are distinct and in that order, and it never yields any other value.
 */
module JsonParse {
  import opened Wrappers
  import opened Text
  import opened Decimal
  import opened Numbers
  import opened Json
  import UriCoding

  // What was read, and the text that follows it.
  type Parsed<T> = Result<(T, Text), ()>

  // ----- Numerals -----

  /** The digits a text opens with, and the rest. */
  function Run(t: Text): (r: (Text, Text))
    ensures AllDigits(r.0) && |r.0| + |r.1| == |t|
  {
    if t == [] || !IsDigit(t[0]) then ([], t)
    else
      var (digits, rest) := Run(t[1..]);
      ([t[0]] + digits, rest)
  }

  function Fraction(t: Text): (r: Parsed<Text>)
    ensures r.Success? ==> AllDigits(r.value.0) && |r.value.1| <= |t|
  {
    if t == [] || t[0] != POINT then Success(([], t))
    else
      var (digits, rest) := Run(t[1..]);
      if digits == [] then Failure(()) else Success((digits, rest))
  }

  function Power(t: Text): (r: Parsed<int>)
    ensures r.Success? ==> |r.value.1| <= |t|
  {
    if t == [] || (t[0] != EXPONENT && t[0] != EXPONENT - 32) then Success((0, t))
    else if |t| > 1 && t[1] == MINUS then
      var (p, rest) :- Whole(t[2..]);
      var n: int := Read(p);
      Success((-n, rest))
    else
      var (p, rest) :- Whole(if |t| > 1 && t[1] == PLUS then t[2..] else t[1..]);
      Success((Read(p), rest))
  }

  /** One digit or more. */
  function Whole(t: Text): (r: Parsed<Text>)
    ensures r.Success? ==> r.value.0 != [] && AllDigits(r.value.0) && |r.value.1| < |t|
  {
    var (digits, rest) := Run(t);
    if digits == [] then Failure(()) else Success((digits, rest))
  }

  // What a numeral is made of.
  datatype Parts = Parts(negative: bool, whole: Text, fraction: Text, power: int) {
    predicate Valid() {
      AllDigits(whole) && AllDigits(fraction)
    }
  }

  function Unsigned(t: Text): (r: Parsed<Parts>)
    ensures r.Success? ==> r.value.0.Valid() && |r.value.1| < |t|
  {
    var (whole, u) :- Whole(t);
    if |whole| > 1 && whole[0] == ZERO then Failure(())
    else
      var (fraction, v) :- Fraction(u);
      var (power, w) :- Power(v);
      Success((Parts(false, whole, fraction, power), w))
  }

  function Numeral(t: Text): (r: Parsed<Parts>)
    ensures r.Success? ==> r.value.0.Valid() && |r.value.1| < |t|
  {
    if t != [] && t[0] == MINUS then
      var (parts, rest) :- Unsigned(t[1..]);
      Success((parts.(negative := true), rest))
    else Unsigned(t)
  }

  /** A numeral denotes its exact decimal. */
  function Denoted(parts: Parts): Number
    requires parts.Valid()
  {
    Shortest(parts.negative, DigitsOf(parts), parts.power - |parts.fraction|)
  }

  function DigitsOf(parts: Parts): (t: Text)
    requires parts.Valid()
    ensures AllDigits(t)
  {
    parts.whole + parts.fraction
  }

  // ----- Strings -----

  function Unescaped(u: Unit): Option<Unit> {
    if u == QUOTE || u == BACKSLASH || u == 47 then Some(u)
    else if u == 98 then Some(8)
    else if u == 116 then Some(9)
    else if u == 110 then Some(10)
    else if u == 102 then Some(12)
    else if u == 114 then Some(13)
    else None
  }

  function Hex4Value(t: Text): Option<Unit>
    requires |t| == 4
  {
    match (UriCoding.HexValue(t[0]), UriCoding.HexValue(t[1]), UriCoding.HexValue(t[2]), UriCoding.HexValue(t[3]))
    case (Some(a), Some(b), Some(c), Some(d)) =>
      var n := ((a * 16 + b) * 16 + c) * 16 + d;
      if n < 0x1_0000 then Some(n) else None
    case _ => None
  }

  /** One character of a string, escaped or not. */
  function Character(t: Text): (r: Parsed<Unit>)
    requires t != []
    ensures r.Success? ==> |r.value.1| < |t|
  {
    if t[0] < 32 then Failure(())
    else if t[0] != BACKSLASH then Success((t[0], t[1..]))
    else if |t| < 2 then Failure(())
    else if t[1] == LETTER_U then
      if |t| < 6 then Failure(())
      else match Hex4Value(t[2..6])
        case Some(u) => Success((u, t[6..]))
        case None => Failure(())
    else match Unescaped(t[1])
      case Some(u) => Success((u, t[2..]))
      case None => Failure(())
  }

  /** A string after its opening quote, up to the closing one. */
  function Characters(t: Text): (r: Parsed<Text>)
    ensures r.Success? ==> |r.value.1| < |t|
    decreases |t|
  {
    if t == [] then Failure(())
    else if t[0] == QUOTE then Success(([], t[1..]))
    else
      var (u, rest) :- Character(t);
      var (s, after) :- Characters(rest);
      Success(([u] + s, after))
  }

  // ----- Objects -----

  /** The array index a key is the canonical numeral of, if any. */
  function ArrayIndex(key: Text): Option<nat> {
    if key != [] && AllDigits(key) && (|key| == 1 || key[0] != ZERO) && Read(key) < 0xFFFF_FFFF
    then Some(Read(key))
    else None
  }

  /** The array indices are the canonical numerals below 2^32 - 1. */
  lemma ArrayIndicesExactly(key: Text, n: nat)
    ensures ArrayIndex(key) == Some(n) <==> key == Decimal.Digits(n) && n < 4_294_967_295
  {
    var d := Decimal.Digits(n);
    ReadOfDigits(n);
    if n > 0 { DigitsHaveNoLeadingZero(n); }
    if ArrayIndex(key) == Some(n) {
      SameCanonical(key, d);
    }
  }

  lemma SameCanonical(a: Text, b: Text)
    requires a != [] && AllDigits(a) && (|a| == 1 || a[0] != ZERO)
    requires b != [] && AllDigits(b) && (|b| == 1 || b[0] != ZERO)
    requires Read(a) == Read(b)
    ensures a == b
  {
    if |a| > |b| {
      LongerIsLarger(a, b);
    } else if |b| > |a| {
      LongerIsLarger(b, a);
    } else {
      ReadIsInjective(a, b);
    }
  }

  /** Array indices come first, in ascending order; the other keys follow as they were added. */
  predicate Precedes(a: Text, b: Text) {
    || ArrayIndex(b).None?
    || (ArrayIndex(a).Some? && ArrayIndex(a).value <= ArrayIndex(b).value)
  }

  predicate InOrder(entries: seq<(Text, Json)>) {
    forall i, j :: 0 <= i < j < |entries| ==>
      entries[i].0 != entries[j].0 && Precedes(entries[i].0, entries[j].0)
  }

  function Place(entries: seq<(Text, Json)>, entry: (Text, Json)): (r: seq<(Text, Json)>)
    ensures forall e :: e in r <==> e in entries || e == entry
  {
    var n := |entries| - 1;
    if entries == [] || Precedes(entries[n].0, entry.0) then entries + [entry]
    else
      assert entries == entries[..n] + [entries[n]];
      Place(entries[..n], entry) + [entries[n]]
  }

  function Replace(entries: seq<(Text, Json)>, key: Text, v: Json): (r: seq<(Text, Json)>)
    ensures |r| == |entries|
    ensures forall i :: 0 <= i < |r| ==> r[i].0 == entries[i].0 && (r[i] == entries[i] || r[i].1 == v)
  {
    if entries == [] then []
    else if entries[0].0 == key then [(key, v)] + entries[1..]
    else [entries[0]] + Replace(entries[1..], key, v)
  }

  /** Define a property of the object under construction. */
  function Put(entries: seq<(Text, Json)>, key: Text, v: Json): seq<(Text, Json)> {
    if FirstEntry(entries, key).Some? then Replace(entries, key, v) else Place(entries, (key, v))
  }

  // ----- Values -----

  function SkipSpace(t: Text): (r: Text)
    ensures |r| <= |t|
  {
    if t != [] && (t[0] == 32 || t[0] == 9 || t[0] == 10 || t[0] == 13) then SkipSpace(t[1..]) else t
  }

  function Literal(t: Text, word: Text, v: Json): (r: Parsed<Json>)
    requires word != []
    ensures r.Success? ==> |r.value.1| < |t| && r.value.0 == v
  {
    if word <= t then Success((v, t[|word|..])) else Failure(())
  }

  /** A value that holds no other. */
  function Scalar(t: Text): (r: Parsed<Json>)
    requires t != []
    ensures r.Success? ==> |r.value.1| < |t| && !r.value.0.Arr? && !r.value.0.Obj?
  {
    if t[0] == QUOTE then
      var (s, rest) :- Characters(t[1..]);
      Success((Str(s), rest))
    else if t[0] == 110 then Literal(t, Ascii("null"), Null)
    else if t[0] == 116 then Literal(t, Ascii("true"), Bool(true))
    else if t[0] == 102 then Literal(t, Ascii("false"), Bool(false))
    else
      var (parts, rest) :- Numeral(t);
      Success((Num(Denoted(parts)), rest))
  }

  function Value(t: Text): (r: Parsed<Json>)
    ensures r.Success? ==> |r.value.1| < |t|
    decreases |t|, 0
  {
    var u := SkipSpace(t);
    if u == [] then Failure(())
    else if u[0] == OPEN_BRACKET then Elements(u[1..])
    else if u[0] == OPEN_BRACE then Members(u[1..])
    else Scalar(u)
  }

  /** An array after its opening bracket. */
  function Elements(t: Text): (r: Parsed<Json>)
    ensures r.Success? ==> |r.value.1| < |t|
    decreases |t|, 2
  {
    var u := SkipSpace(t);
    if u != [] && u[0] == CLOSE_BRACKET then Success((Arr([]), u[1..]))
    else
      var (items, rest) :- SomeElements(t);
      Success((Arr(items), rest))
  }

  function SomeElements(t: Text): (r: Parsed<seq<Json>>)
    ensures r.Success? ==> |r.value.1| < |t| && r.value.0 != []
    decreases |t|, 1
  {
    var (v, rest) :- Value(t);
    var u := SkipSpace(rest);
    if u == [] then Failure(())
    else if u[0] == CLOSE_BRACKET then Success(([v], u[1..]))
    else if u[0] == COMMA then
      var (more, after) :- SomeElements(u[1..]);
      Success(([v] + more, after))
    else Failure(())
  }

  /** An object after its opening brace. */
  function Members(t: Text): (r: Parsed<Json>)
    ensures r.Success? ==> |r.value.1| < |t|
    decreases |t|, 2
  {
    var u := SkipSpace(t);
    if u != [] && u[0] == CLOSE_BRACE then Success((Obj([]), u[1..]))
    else
      var (entries, rest) :- SomeMembers(t, []);
      Success((Obj(entries), rest))
  }

  function SomeMembers(t: Text, entries: seq<(Text, Json)>): (r: Parsed<seq<(Text, Json)>>)
    ensures r.Success? ==> |r.value.1| < |t|
    decreases |t|, 1
  {
    var (entry, rest) :- OneMember(t);
    var u := SkipSpace(rest);
    var all := Put(entries, entry.0, entry.1);
    if u == [] then Failure(())
    else if u[0] == CLOSE_BRACE then Success((all, u[1..]))
    else if u[0] == COMMA then SomeMembers(u[1..], all)
    else Failure(())
  }

  function OneMember(t: Text): (r: Parsed<(Text, Json)>)
    ensures r.Success? ==> |r.value.1| < |t|
    decreases |t|, 0
  {
    var u := SkipSpace(t);
    if u == [] || u[0] != QUOTE then Failure(())
    else
      var (key, rest) :- Characters(u[1..]);
      var w := SkipSpace(rest);
      if w == [] || w[0] != COLON then Failure(())
      else
        var (v, after) :- Value(w[1..]);
        Success(((key, v), after))
  }

  function Parse(t: Text): Result<Json, ()> {
    var (v, rest) :- Value(t);
    if SkipSpace(rest) == [] then Success(v) else Failure(())
  }

  /** The values JavaScript can hold: every object has distinct keys, array indices first. */
  predicate WellKeyed(v: Json)
    decreases v
  {
    match v
    case Arr(items) => forall i :: 0 <= i < |items| ==> WellKeyed(items[i])
    case Obj(entries) => InOrder(entries) && forall i :: 0 <= i < |entries| ==> WellKeyedMember(entries[i])
    case _ => true
  }

  predicate WellKeyedMember(entry: (Text, Json))
    decreases entry
  {
    WellKeyed(entry.1)
  }

  // ----- Numerals read back -----

  lemma {:induction false} RunStops(d: Text, x: Text)
    requires AllDigits(d) && (x == [] || !IsDigit(x[0]))
    ensures Run(d + x) == (d, x)
  {
    if d == [] {
      assert d + x == x;
    } else {
      assert (d + x)[0] == d[0] && (d + x)[1..] == d[1..] + x;
      assert d == [d[0]] + d[1..];
      RunStops(d[1..], x);
    }
  }

  /** How many units mark the power a text opens with, if it does. */
  function MarkSize(t: Text): (n: nat)
    ensures n <= |t| && n <= 2
  {
    if t == [] || (t[0] != EXPONENT && t[0] != EXPONENT - 32) then 0
    else if |t| > 1 && (t[1] == PLUS || t[1] == MINUS) then 2
    else 1
  }

  lemma PowerByMark(t: Text)
    ensures var n := MarkSize(t);
            Power(t) ==
            if n == 0 then Success((0, t))
            else match Whole(t[n..])
              case Failure(_) => Failure(())
              case Success((d, rest)) => Success((if n == 2 && t[1] == MINUS then -1 * Read(d) else Read(d), rest))
  {
  }

  lemma DigitsAfterMark(sign: Unit, d: Text, x: Text)
    requires sign == PLUS || sign == MINUS
    requires d != [] && AllDigits(d) && (x == [] || !IsDigit(x[0]))
    ensures Power([EXPONENT, sign] + (d + x)) == Success((if sign == MINUS then -1 * Read(d) else Read(d), x))
  {
    var t := [EXPONENT, sign] + (d + x);
    RunStops(d, x);
    assert t[2..] == d + x && MarkSize(t) == 2;
    PowerByMark(t);
  }

  lemma PowerReadsBack(l: Layout, x: Text)
    requires Delimited(x)
    ensures Power(l.PowerText() + x) == Success((if l.power.Some? then l.power.value else 0, x))
  {
    if l.power.Some? {
      var p := l.power.value;
      var sign, d := if p < 0 then MINUS else PLUS, Digits(if p < 0 then -p else p);
      DigitsAfterMark(sign, d, x);
      assert l.PowerText() + x == [EXPONENT, sign] + (d + x);
      ReadOfDigits(if p < 0 then -p else p);
    } else {
      assert l.PowerText() + x == x;
    }
  }

  lemma DigitsAfterPoint(f: Text, y: Text)
    requires f != [] && AllDigits(f) && (y == [] || !IsDigit(y[0]))
    ensures Fraction([POINT] + (f + y)) == Success((f, y))
  {
    assert ([POINT] + (f + y))[1..] == f + y;
    RunStops(f, y);
  }

  lemma FractionReadsBack(l: Layout, x: Text)
    requires l.Valid() && Delimited(x)
    ensures Fraction(l.Tail() + x) == Success((l.fraction, l.PowerText() + x))
  {
    var y := l.PowerText() + x;
    assert y == [] || (y[0] != POINT && !IsDigit(y[0]));
    if l.fraction == [] {
      assert l.Tail() + x == y;
    } else {
      Regroup([POINT], l.fraction, l.PowerText(), x);
      Regroup(l.fraction, l.PowerText(), x, []);
      assert l.Tail() + x == [POINT] + (l.fraction + y);
      DigitsAfterPoint(l.fraction, y);
    }
  }

  lemma WholeReadsBack(l: Layout, x: Text)
    requires l.Valid() && Delimited(x)
    ensures Whole(l.Render() + x) == Success((l.whole, l.Tail() + x))
  {
    assert l.Render() + x == l.whole + (l.Tail() + x);
    assert l.Tail() + x == [] || !IsDigit((l.Tail() + x)[0]);
    RunStops(l.whole, l.Tail() + x);
  }

  lemma WholeHasNoLeadingZero(d: Text, e: int)
    requires d != [] && AllDigits(d) && NoZeroAtEnds(d)
    ensures var l := LaidOut(d, e); |l.whole| == 1 || l.whole[0] != ZERO
  {
  }

  function PartsOf(l: Layout, negative: bool): Parts {
    Parts(negative, l.whole, l.fraction, if l.power.Some? then l.power.value else 0)
  }

  lemma LayoutReadsBack(l: Layout, x: Text)
    requires l.Valid() && (|l.whole| == 1 || l.whole[0] != ZERO) && Delimited(x)
    ensures Unsigned(l.Render() + x) == Success((PartsOf(l, false), x))
  {
    WholeReadsBack(l, x);
    FractionReadsBack(l, x);
    PowerReadsBack(l, x);
  }

  lemma PlacedReadsBack(d: Text, e: int, x: Text)
    requires d != [] && AllDigits(d) && NoZeroAtEnds(d) && Delimited(x)
    ensures Unsigned(Placed(d, e) + x) == Success((PartsOf(LaidOut(d, e), false), x))
  {
    PlacedIsLaidOut(d, e);
    WholeHasNoLeadingZero(d, e);
    LayoutReadsBack(LaidOut(d, e), x);
  }

  lemma SignReadsBack(u: Text, parts: Parts, x: Text)
    requires Unsigned(u) == Success((parts, x))
    ensures Numeral([MINUS] + u) == Success((parts.(negative := true), x))
    ensures u != [] && u[0] != MINUS ==> Numeral(u) == Success((parts, x))
  {
    assert ([MINUS] + u)[1..] == u;
  }

  lemma ZeroReadsBack(x: Text)
    requires Delimited(x)
    ensures Numeral([ZERO] + x) == Success((Parts(false, [ZERO], [], 0), x))
    ensures Denoted(Parts(false, [ZERO], [], 0)) == NOUGHT
  {
    var l := Layout([ZERO], [], None);
    LayoutReadsBack(l, x);
    assert l.Render() == [ZERO];
    SignReadsBack([ZERO] + x, PartsOf(l, false), x);
    assert [ZERO] + [] == [ZERO] && [ZERO][1..] == [];
  }

  lemma SignedUnit(negative: bool, t: Text, x: Text, parts: Parts)
    requires t != [] && t[0] != MINUS && !parts.negative && Unsigned(t + x) == Success((parts, x))
    ensures Numeral((if negative then [MINUS] else []) + t + x) == Success((parts.(negative := negative), x))
  {
    assert (t + x)[0] == t[0];
    SignReadsBack(t + x, parts, x);
    Regroup(if negative then [MINUS] else [], t, x, []);
    assert [] + (t + x) == t + x;
  }

  lemma SignedReadsBack(negative: bool, d: Text, e: int, x: Text) returns (parts: Parts)
    requires d != [] && AllDigits(d) && NoZeroAtEnds(d) && Delimited(x)
    ensures Numeral((if negative then [MINUS] else []) + Placed(d, e) + x) == Success((parts, x))
    ensures parts.Valid() && Denoted(parts) == Scientific(negative, d, e)
  {
    var l, t := LaidOut(d, e), Placed(d, e);
    PlacedReadsBack(d, e, x);
    PlacedStartsWithDigit(d, e);
    LayoutNamesNumber(negative, d, e);
    parts := PartsOf(l, negative);
    SignedUnit(negative, t, x, PartsOf(l, false));
  }

  lemma NumeralReadsBack(n: Number, x: Text) returns (parts: Parts)
    requires Delimited(x)
    ensures Numeral(NumberText(n) + x) == Success((parts, x)) && parts.Valid() && Denoted(parts) == n
  {
    if n.digits == [] {
      ZeroReadsBack(x);
      parts := Parts(false, [ZERO], [], 0);
    } else {
      parts := SignedReadsBack(n.negative, n.digits, n.exponent, x);
    }
  }

  // ----- Strings read back -----

  lemma HexReadsBack(u: Unit)
    ensures Hex4Value(Hex4(u)) == Some(u)
  {
    var a := u / 16;
    var b := a / 16;
    UriCoding.DivMod(u, 16);
    UriCoding.DivMod(a, 16);
    UriCoding.DivMod(b, 16);
  }

  lemma PieceReadsBack(s: Text, y: Text)
    requires s != [] && !StartsWithPair(s)
    ensures Character(Piece(s) + y) == Success((s[0], y)) && Piece(s)[0] != QUOTE
  {
    var p := Piece(s);
    var t := p + y;
    assert t[|p|..] == y;
    if |p| == 6 {
      assert t[2..6] == Hex4(s[0]);
      HexReadsBack(s[0]);
    }
  }

  /** Both halves of a pair are read as they are. */
  lemma PairReadsBack(high: Unit, low: Unit, y: Text, tail: Text, x: Text)
    requires IsHigh(high) && IsLow(low) && Characters(y) == Success((tail, x))
    ensures Characters([high, low] + y) == Success(([high, low] + tail, x))
  {
    assert ([high, low] + y)[1..] == [low] + y && ([low] + y)[1..] == y;
    assert Characters([low] + y) == Success(([low] + tail, x));
    assert [high, low] + tail == [high] + ([low] + tail);
  }

  lemma SingleReadsBack(t: Text, u: Unit, y: Text, tail: Text, x: Text)
    requires t != [] && t[0] != QUOTE && Character(t) == Success((u, y)) && Characters(y) == Success((tail, x))
    ensures Characters(t) == Success(([u] + tail, x))
  {
  }

  lemma {:induction false} StringReadsBack(s: Text, x: Text)
    ensures Characters(Escape(s) + [QUOTE] + x) == Success((s, x))
  {
    if s == [] {
      assert Escape(s) + [QUOTE] + x == [QUOTE] + x;
      assert ([QUOTE] + x)[1..] == x;
    } else {
      var tail := s[Step(s)..];
      var y := Escape(tail) + [QUOTE] + x;
      StringReadsBack(tail, x);
      Regroup(Piece(s), Escape(tail), [QUOTE], x);
      if StartsWithPair(s) {
        PairReadsBack(s[0], s[1], y, tail, x);
        assert s[..2] == [s[0], s[1]] && s == s[..2] + tail;
      } else {
        PieceReadsBack(s, y);
        SingleReadsBack(Piece(s) + y, s[0], y, tail, x);
        assert s == [s[0]] + tail;
      }
    }
  }

  lemma QuoteReadsBack(s: Text, x: Text)
    ensures var t := Quote(s) + x; t[0] == QUOTE && Characters(t[1..]) == Success((s, x))
  {
    assert (Quote(s) + x)[1..] == Escape(s) + [QUOTE] + x;
    StringReadsBack(s, x);
  }

  // ----- Values read back -----

  lemma NoSpaceToSkip(v: Json, x: Text)
    ensures var t := Stringify(v) + x; SkipSpace(t) == t && t != [] && t[0] == Stringify(v)[0]
  {
    FirstUnit(v);
    if v.Num? { NumberTextUnits(v.num); }
  }

  /** A printed value followed by a delimiter reads back. */
  lemma {:induction false} ValueReadsBack(v: Json, x: Text)
    requires WellKeyed(v) && Delimited(x)
    ensures Value(Stringify(v) + x) == Success((v, x))
    decreases v
  {
    var t := Stringify(v) + x;
    NoSpaceToSkip(v, x);
    match v {
      case Null => LiteralReadsBack(v, x);
      case Bool(_) => LiteralReadsBack(v, x);
      case Num(n) => NumberReadsBack(n, x);
      case Str(s) => QuoteReadsBack(s, x);
      case Arr(items) => ArrayReadsBack(items, x);
      case Obj(entries) => ObjectReadsBack(entries, x);
    }
  }

  lemma LiteralReadsBack(v: Json, x: Text)
    requires v.Null? || v.Bool?
    ensures Scalar(Stringify(v) + x) == Success((v, x))
  {
    var word := Stringify(v);
    var t := word + x;
    assert t[|word|..] == x && t[..|word|] == word;
    assert t[0] == word[0];
  }

  /** Only a numeral starts with a digit or a sign. */
  lemma NumeralsStandAlone(t: Text, parts: Parts, x: Text)
    requires t != [] && (IsDigit(t[0]) || t[0] == MINUS) && Numeral(t) == Success((parts, x))
    ensures Scalar(t) == Success((Num(Denoted(parts)), x))
  {
  }

  lemma NumberReadsBack(n: Number, x: Text)
    requires Delimited(x)
    ensures Scalar(NumberText(n) + x) == Success((Num(n), x))
  {
    NumberTextUnits(n);
    var parts := NumeralReadsBack(n, x);
    var t := NumberText(n);
    assert (t + x)[0] == t[0];
    NumeralsStandAlone(t + x, parts, x);
  }

  lemma {:induction false} ArrayReadsBack(items: seq<Json>, x: Text)
    requires (forall i :: 0 <= i < |items| ==> WellKeyed(items[i])) && Delimited(x)
    ensures Value(Stringify(Arr(items)) + x) == Success((Arr(items), x))
    decreases items, 1
  {
    var t := Stringify(Arr(items)) + x;
    NoSpaceToSkip(Arr(items), x);
    if items == [] {
      assert t[1..] == [CLOSE_BRACKET] + x && ([CLOSE_BRACKET] + x)[1..] == x;
    } else {
      Shift(OPEN_BRACKET, Stringify(items[0]), MoreItems(items[1..]), x);
      var u := Stringify(items[0]) + (MoreItems(items[1..]) + x);
      NoSpaceToSkip(items[0], MoreItems(items[1..]) + x);
      FirstUnit(items[0]);
      if items[0].Num? { NumberTextUnits(items[0].num); }
      assert t[1..] == u && u[0] != CLOSE_BRACKET;
      ItemsReadBack(items, x);
    }
  }

  lemma {:induction false} ItemsReadBack(items: seq<Json>, x: Text)
    requires items != [] && (forall i :: 0 <= i < |items| ==> WellKeyed(items[i])) && Delimited(x)
    ensures SomeElements(Stringify(items[0]) + (MoreItems(items[1..]) + x)) == Success((items, x))
    decreases items, 0
  {
    var more := items[1..];
    var rest := MoreItems(more) + x;
    assert rest != [] && rest[0] == if more == [] then CLOSE_BRACKET else COMMA;
    ValueReadsBack(items[0], rest);
    assert items == [items[0]] + more;
    if more == [] {
      assert rest == [CLOSE_BRACKET] + x && rest[1..] == x;
      assert SkipSpace(rest) == rest && items == [items[0]];
      assert SomeElements(Stringify(items[0]) + rest) == Success(([items[0]], x));
    } else {
      Shift(COMMA, Stringify(more[0]), MoreItems(more[1..]), x);
      assert rest[0] == COMMA && SkipSpace(rest) == rest;
      assert rest[1..] == Stringify(more[0]) + (MoreItems(more[1..]) + x);
      ItemsReadBack(more, x);
    }
  }

  lemma OpensObject(u: Text)
    ensures Value([OPEN_BRACE] + u) == Members(u)
  {
    assert ([OPEN_BRACE] + u)[1..] == u;
  }

  lemma EmptyObjectReadsBack(x: Text)
    ensures Members([CLOSE_BRACE] + x) == Success((Obj([]), x))
  {
    assert ([CLOSE_BRACE] + x)[1..] == x;
  }

  lemma {:induction false} ObjectReadsBack(entries: seq<(Text, Json)>, x: Text)
    requires InOrder(entries) && (forall i :: 0 <= i < |entries| ==> WellKeyedMember(entries[i])) && Delimited(x)
    ensures Value(Stringify(Obj(entries)) + x) == Success((Obj(entries), x))
    decreases entries, 1
  {
    if entries == [] {
      EmptyObjectReadsBack(x);
      OpensObject([CLOSE_BRACE] + x);
      assert Stringify(Obj(entries)) + x == [OPEN_BRACE] + ([CLOSE_BRACE] + x);
    } else {
      var u := Member(entries[0]) + (MoreMembers(entries[1..]) + x);
      Regroup([OPEN_BRACE], Member(entries[0]), MoreMembers(entries[1..]), x);
      Regroup(Member(entries[0]), MoreMembers(entries[1..]), x, []);
      assert Stringify(Obj(entries)) + x == [OPEN_BRACE] + u;
      OpensObject(u);
      assert u[0] == QUOTE && SkipSpace(u) == u;
      MembersReadBack(entries, 0, x);
      assert entries[..0] == [];
    }
  }

  lemma LastMember(t: Text, entries: seq<(Text, Json)>, entry: (Text, Json), x: Text)
    requires OneMember(t) == Success((entry, [CLOSE_BRACE] + x))
    ensures SomeMembers(t, entries) == Success((Put(entries, entry.0, entry.1), x))
  {
    assert ([CLOSE_BRACE] + x)[1..] == x;
  }

  lemma NextMember(t: Text, entries: seq<(Text, Json)>, entry: (Text, Json), u: Text)
    requires OneMember(t) == Success((entry, [COMMA] + u))
    ensures SomeMembers(t, entries) == SomeMembers(u, Put(entries, entry.0, entry.1))
  {
    assert ([COMMA] + u)[1..] == u;
  }

  /** From member k on, with the members before it already read. */
  lemma {:induction false} MembersReadBack(entries: seq<(Text, Json)>, k: nat, x: Text)
    requires k < |entries| && InOrder(entries) && Delimited(x)
    requires forall i :: 0 <= i < |entries| ==> WellKeyedMember(entries[i])
    ensures SomeMembers(Member(entries[k]) + (MoreMembers(entries[k + 1..]) + x), entries[..k]) == Success((entries, x))
    decreases entries, 0, |entries| - k
  {
    var more := entries[k + 1..];
    var rest := MoreMembers(more) + x;
    var t := Member(entries[k]) + rest;
    MemberReadsBack(entries[k], rest);
    PutAppends(entries, k);
    if more == [] {
      assert entries[..k + 1] == entries;
      LastMember(t, entries[..k], entries[k], x);
    } else {
      assert more[0] == entries[k + 1] && more[1..] == entries[k + 2..];
      var u := Member(more[0]) + (MoreMembers(more[1..]) + x);
      Regroup([COMMA], Member(more[0]), MoreMembers(more[1..]), x);
      Regroup(Member(more[0]), MoreMembers(more[1..]), x, []);
      assert rest == [COMMA] + u;
      NextMember(t, entries[..k], entries[k], u);
      MembersReadBack(entries, k + 1, x);
    }
  }

  lemma ColonSeparates(t: Text, key: Text, y: Text, v: Json, x: Text)
    requires t != [] && t[0] == QUOTE && Characters(t[1..]) == Success((key, [COLON] + y))
    requires Value(y) == Success((v, x))
    ensures OneMember(t) == Success(((key, v), x))
  {
    assert ([COLON] + y)[1..] == y;
  }

  lemma {:induction false} MemberReadsBack(entry: (Text, Json), x: Text)
    requires WellKeyedMember(entry) && Delimited(x)
    ensures OneMember(Member(entry) + x) == Success((entry, x))
    decreases entry
  {
    var y := Stringify(entry.1) + x;
    MemberSplit(entry, x);
    QuoteReadsBack(entry.0, [COLON] + y);
    ValueReadsBack(entry.1, x);
    ColonSeparates(Quote(entry.0) + ([COLON] + y), entry.0, y, entry.1, x);
  }

  lemma PutAppends(entries: seq<(Text, Json)>, k: nat)
    requires k < |entries| && InOrder(entries)
    ensures Put(entries[..k], entries[k].0, entries[k].1) == entries[..k + 1]
  {
    KeyIsNew(entries[..k], entries[k].0);
    assert k > 0 ==> entries[..k][k - 1] == entries[k - 1];
  }

  lemma {:induction false} KeyIsNew(entries: seq<(Text, Json)>, key: Text)
    ensures FirstEntry(entries, key).None? <==> forall i :: 0 <= i < |entries| ==> entries[i].0 != key
  {
    if entries != [] { KeyIsNew(entries[1..], key); }
  }

  // ----- Nothing else is ever read -----

  lemma {:induction false} PlaceKeepsOrder(entries: seq<(Text, Json)>, entry: (Text, Json))
    requires InOrder(entries) && forall i :: 0 <= i < |entries| ==> entries[i].0 != entry.0
    ensures InOrder(Place(entries, entry))
  {
    var n := |entries| - 1;
    if entries != [] && !Precedes(entries[n].0, entry.0) {
      PlaceKeepsOrder(entries[..n], entry);
      var r := Place(entries[..n], entry);
      forall i | 0 <= i < |r| ensures r[i].0 != entries[n].0 && Precedes(r[i].0, entries[n].0) {
        assert r[i] in r;
      }
    } else if entries != [] {
      forall i | 0 <= i < |entries| ensures Precedes(entries[i].0, entry.0) {
        assert i < n ==> Precedes(entries[i].0, entries[n].0);
      }
    }
  }

  predicate Sound(entries: seq<(Text, Json)>) {
    InOrder(entries) && forall e :: e in entries ==> WellKeyed(e.1)
  }

  lemma PutIsSound(entries: seq<(Text, Json)>, key: Text, v: Json)
    requires Sound(entries) && WellKeyed(v)
    ensures Sound(Put(entries, key, v))
  {
    KeyIsNew(entries, key);
    if FirstEntry(entries, key).None? { PlaceKeepsOrder(entries, (key, v)); }
  }

  lemma {:induction false} ValuesAreWellKeyed(t: Text)
    ensures Value(t).Success? ==> WellKeyed(Value(t).value.0)
    decreases |t|, 0
  {
    var u := SkipSpace(t);
    if u != [] && u[0] == OPEN_BRACKET {
      ElementsAreWellKeyed(u[1..]);
    } else if u != [] && u[0] == OPEN_BRACE && SomeMembers(u[1..], []).Success? {
      MembersAreSound(u[1..], []);
      var entries := SomeMembers(u[1..], []).value.0;
      assert forall i :: 0 <= i < |entries| ==> entries[i] in entries;
    }
  }

  lemma {:induction false} ElementsAreWellKeyed(t: Text)
    ensures SomeElements(t).Success? ==> WellKeyed(Arr(SomeElements(t).value.0))
    decreases |t|, 1
  {
    ValuesAreWellKeyed(t);
    if Value(t).Success? {
      var u := SkipSpace(Value(t).value.1);
      if u != [] && u[0] == COMMA { ElementsAreWellKeyed(u[1..]); }
    }
  }

  lemma {:induction false} MembersAreSound(t: Text, entries: seq<(Text, Json)>)
    requires Sound(entries)
    ensures SomeMembers(t, entries).Success? ==> Sound(SomeMembers(t, entries).value.0)
    decreases |t|, 1
  {
    MemberIsWellKeyed(t);
    if OneMember(t).Success? {
      var (entry, rest) := OneMember(t).value;
      var u := SkipSpace(rest);
      PutIsSound(entries, entry.0, entry.1);
      if u != [] && u[0] == COMMA { MembersAreSound(u[1..], Put(entries, entry.0, entry.1)); }
    }
  }

  lemma {:induction false} MemberIsWellKeyed(t: Text)
    ensures OneMember(t).Success? ==> WellKeyed(OneMember(t).value.0.1)
    decreases |t|, 0
  {
    var u := SkipSpace(t);
    if u != [] && u[0] == QUOTE && Characters(u[1..]).Success? {
      var w := SkipSpace(Characters(u[1..]).value.1);
      if w != [] { ValuesAreWellKeyed(w[1..]); }
    }
  }

  /** Parsing reads back what was printed exactly for the values JavaScript can hold, and yields only those. */
  lemma ParseReadsBackExactly(v: Json)
    ensures Parse(Stringify(v)) == Success(v) <==> WellKeyed(v)
  {
    if WellKeyed(v) {
      ValueReadsBack(v, []);
      assert Stringify(v) + [] == Stringify(v);
    }
    ValuesAreWellKeyed(Stringify(v));
  }
}
