/**
 encodeURIComponent and decodeURIComponent, section 19.2.6 of ECMA-262: percent-encoded UTF-8 of
 every code point outside the unreserved ASCII characters.
 */
module UriCoding {
  import opened Wrappers
  import opened Text

  type Byte = b: int | 0 <= b < 256

  const PERCENT: Unit := 37

  predicate Unreserved(u: Unit) {
    || 48 <= u < 58 || 65 <= u < 91 || 97 <= u < 123
    || u in {45, 95, 46, 33, 126, 42, 39, 40, 41}
  }

  function UpperHex(n: nat): (u: Unit)
    requires n < 16
  {
    if n < 10 then 48 + n else 55 + n
  }

  function HexValue(u: Unit): Option<nat> {
    if 48 <= u < 58 then Some(u - 48)
    else if 65 <= u < 71 then Some(u - 55)
    else if 97 <= u < 103 then Some(u - 87)
    else None
  }

  function Percent(b: Byte): (t: Text)
    ensures |t| == 3 && t[0] == PERCENT
  {
    [PERCENT, UpperHex(b / 16), UpperHex(b % 16)]
  }

  function PercentAll(bytes: seq<Byte>): (t: Text)
    ensures |t| == 3 * |bytes|
  {
    if bytes == [] then [] else Percent(bytes[0]) + PercentAll(bytes[1..])
  }

  predicate IsScalar(cp: int) {
    0 <= cp < 0xD800 || 0xE000 <= cp < 0x11_0000
  }

  /** The code point a well-formed text opens with. */
  function CodePoint(t: Text): (cp: int)
    requires t != [] && (StartsWithPair(t) || !IsSurrogate(t[0]))
    ensures IsScalar(cp)
  {
    var first: int := t[0];
    if StartsWithPair(t) then
      var second: int := t[1];
      0x1_0000 + (first - 0xD800) * 0x400 + (second - 0xDC00)
    else first
  }

  /** The UTF-16 units of a code point. */
  function Units(cp: int): (t: Text)
    requires IsScalar(cp)
  {
    if cp < 0x1_0000 then [cp]
    else
      var high, low := (cp - 0x1_0000) / 0x400, (cp - 0x1_0000) % 0x400;
      [0xD800 + high, 0xDC00 + low]
  }

  function Utf8(cp: int): (bytes: seq<Byte>)
    requires IsScalar(cp)
    ensures 1 <= |bytes| <= 4
  {
    if cp < 0x80 then [cp]
    else if cp < 0x800 then [0xC0 + cp / 0x40, 0x80 + cp % 0x40]
    else if cp < 0x1_0000 then
      var a := cp / 0x40;
      [0xE0 + a / 0x40, 0x80 + a % 0x40, 0x80 + cp % 0x40]
    else
      var a := cp / 0x40;
      var b := a / 0x40;
      [0xF0 + b / 0x40, 0x80 + b % 0x40, 0x80 + a % 0x40, 0x80 + cp % 0x40]
  }

  /** Encoding throws on an unpaired surrogate. */
  function EncodeUri(t: Text): Result<Text, ()> {
    if t == [] then Success([])
    else if !StartsWithPair(t) && IsSurrogate(t[0]) then Failure(())
    else
      var rest :- EncodeUri(t[Step(t)..]);
      Success(EncodePoint(t) + rest)
  }

  function EncodePoint(t: Text): (e: Text)
    requires t != [] && (StartsWithPair(t) || !IsSurrogate(t[0]))
    ensures e != []
  {
    if Unreserved(t[0]) then [t[0]] else PercentAll(Utf8(CodePoint(t)))
  }

  /** The characters left alone are the letters, the digits and nine marks. */
  lemma UnreservedExactly(u: Unit)
    ensures Unreserved(u) <==>
            || 'A' as int <= u <= 'Z' as int || 'a' as int <= u <= 'z' as int || '0' as int <= u <= '9' as int
            || u in Ascii("-_.!~*'()")
  {
    var marks := Ascii("-_.!~*'()");
    assert marks[0] == 45 && marks[1] == 95 && marks[2] == 46 && marks[3] == 33 && marks[4] == 126;
    assert marks[5] == 42 && marks[6] == 39 && marks[7] == 40 && marks[8] == 41;
  }

  predicate IsUpperHex(u: Unit) { 48 <= u < 58 || 65 <= u < 71 }

  /** Nothing but unreserved characters and percent signs, each with two upper-case hex digits. */
  predicate Escaped(e: Text) {
    || e == []
    || (Unreserved(e[0]) && Escaped(e[1..]))
    || (|e| >= 3 && e[0] == PERCENT && IsUpperHex(e[1]) && IsUpperHex(e[2]) && Escaped(e[3..]))
  }

  lemma {:induction false} PercentIsEscaped(bytes: seq<Byte>, rest: Text)
    requires Escaped(rest)
    ensures Escaped(PercentAll(bytes) + rest)
  {
    if bytes == [] {
      assert PercentAll(bytes) + rest == rest;
    } else {
      PercentIsEscaped(bytes[1..], rest);
      var e := PercentAll(bytes) + rest;
      assert e == Percent(bytes[0]) + (PercentAll(bytes[1..]) + rest);
      assert e[3..] == PercentAll(bytes[1..]) + rest;
    }
  }

  lemma {:induction false} EncodeUriEscapes(t: Text)
    requires EncodeUri(t).Success?
    ensures Escaped(EncodeUri(t).value)
  {
    if t != [] {
      var rest := EncodeUri(t[Step(t)..]).value;
      EncodeUriEscapes(t[Step(t)..]);
      if Unreserved(t[0]) {
        assert ([t[0]] + rest)[1..] == rest;
      } else {
        PercentIsEscaped(Utf8(CodePoint(t)), rest);
      }
    }
  }

  // ----- Decoding -----

  /** The byte a text opens with in percent form. */
  function ReadByte(t: Text): Option<Byte> {
    if |t| >= 3 && t[0] == PERCENT && HexValue(t[1]).Some? && HexValue(t[2]).Some?
    then Some(HexValue(t[1]).value * 16 + HexValue(t[2]).value)
    else None
  }

  /** A continuation byte's six bits. */
  function ReadMore(t: Text, k: nat): Option<nat> {
    if |t| < 3 * k then None
    else match ReadByte(t[3 * k..])
      case Some(b) => if 0x80 <= b < 0xC0 then Some(b - 0x80) else None
      case None => None
  }

  // A code point and how many units its percent form takes.
  datatype Point = Point(cp: int, size: nat)

  /** The code point a text opens with in percent form; anything but shortest-form UTF-8 throws. */
  function ReadPoint(t: Text): (r: Result<Point, ()>)
    ensures r.Success? ==> IsScalar(r.value.cp) && 3 <= r.value.size <= |t|
  {
    match ReadByte(t)
    case None => Failure(())
    case Some(b) =>
      if b < 0x80 then Success(Point(b, 3))
      else if 0xC0 <= b < 0xE0 then
        (match ReadMore(t, 1)
         case Some(x) => Checked((b - 0xC0) * 0x40 + x, 0x80, 6)
         case None => Failure(()))
      else if 0xE0 <= b < 0xF0 then
        (match (ReadMore(t, 1), ReadMore(t, 2))
         case (Some(x), Some(y)) => Checked(((b - 0xE0) * 0x40 + x) * 0x40 + y, 0x800, 9)
         case _ => Failure(()))
      else if 0xF0 <= b < 0xF8 then
        (match (ReadMore(t, 1), ReadMore(t, 2), ReadMore(t, 3))
         case (Some(x), Some(y), Some(z)) => Checked((((b - 0xF0) * 0x40 + x) * 0x40 + y) * 0x40 + z, 0x1_0000, 12)
         case _ => Failure(()))
      else Failure(())
  }

  function Checked(cp: int, least: int, size: nat): Result<Point, ()> {
    if least <= cp && IsScalar(cp) then Success(Point(cp, size)) else Failure(())
  }

  function DecodeUri(t: Text): Result<Text, ()>
    decreases |t|
  {
    if t == [] then Success([])
    else if t[0] != PERCENT then
      var rest :- DecodeUri(t[1..]);
      Success([t[0]] + rest)
    else
      var point :- ReadPoint(t);
      var rest :- DecodeUri(t[point.size..]);
      Success(Units(point.cp) + rest)
  }

  // ----- Round trip -----

  lemma ReadBackByte(b: Byte, rest: Text)
    ensures ReadByte(Percent(b) + rest) == Some(b)
  {
    var t := Percent(b) + rest;
    assert t[1] == UpperHex(b / 16) && t[2] == UpperHex(b % 16);
  }

  lemma {:induction false} ReadBackBytes(bytes: seq<Byte>, rest: Text, k: nat)
    requires k < |bytes|
    ensures |PercentAll(bytes) + rest| >= 3 * k
    ensures ReadByte((PercentAll(bytes) + rest)[3 * k..]) == Some(bytes[k])
  {
    var t := PercentAll(bytes) + rest;
    assert t == Percent(bytes[0]) + (PercentAll(bytes[1..]) + rest);
    if k == 0 {
      ReadBackByte(bytes[0], PercentAll(bytes[1..]) + rest);
      assert t[0..] == t;
    } else {
      ReadBackBytes(bytes[1..], rest, k - 1);
      assert t[3 * k..] == (PercentAll(bytes[1..]) + rest)[3 * (k - 1)..];
    }
  }

  lemma DivMod(n: nat, d: nat)
    requires d > 0
    ensures n / d * d + n % d == n && n % d < d
  {
  }

  lemma ReadBackMore(bytes: seq<Byte>, rest: Text, k: nat)
    requires k < |bytes| && 0x80 <= bytes[k] < 0xC0
    ensures ReadMore(PercentAll(bytes) + rest, k) == Some(bytes[k] - 0x80)
  {
    var t := PercentAll(bytes) + rest;
    ReadBackBytes(bytes, rest, k);
    assert |t| >= 3 * k && ReadByte(t[3 * k..]) == Some(bytes[k]);
  }

  lemma ReadBackPoint(cp: int, rest: Text)
    requires IsScalar(cp)
    ensures ReadPoint(PercentAll(Utf8(cp)) + rest) == Success(Point(cp, 3 * |Utf8(cp)|))
  {
    var bytes := Utf8(cp);
    var t := PercentAll(bytes) + rest;
    ReadBackBytes(bytes, rest, 0);
    assert ReadByte(t) == Some(bytes[0]) by { assert t[0..] == t; }
    if cp < 0x80 {
    } else if cp < 0x800 {
      DivMod(cp, 0x40);
      ReadBackMore(bytes, rest, 1);
    } else if cp < 0x1_0000 {
      ReadBackThree(cp, rest);
    } else {
      ReadBackFour(cp, rest);
    }
  }

  lemma ReadBackThree(cp: int, rest: Text)
    requires IsScalar(cp) && 0x800 <= cp < 0x1_0000
    ensures ReadPoint(PercentAll(Utf8(cp)) + rest) == Success(Point(cp, 9))
  {
    var bytes := Utf8(cp);
    var t := PercentAll(bytes) + rest;
    var a := cp / 0x40;
    DivMod(cp, 0x40);
    DivMod(a, 0x40);
    assert bytes == [0xE0 + a / 0x40, 0x80 + a % 0x40, 0x80 + cp % 0x40];
    assert 0xE0 <= bytes[0] < 0xF0;
    ReadBackBytes(bytes, rest, 0);
    assert ReadByte(t) == Some(bytes[0]) by { assert t[0..] == t; }
    ReadBackMore(bytes, rest, 1);
    ReadBackMore(bytes, rest, 2);
    var x: int, y: int, z: int := bytes[0] - 0xE0, bytes[1] - 0x80, bytes[2] - 0x80;
    assert ReadPoint(t) == Checked((x * 0x40 + y) * 0x40 + z, 0x800, 9);
  }

  lemma ReadBackFour(cp: int, rest: Text)
    requires IsScalar(cp) && 0x1_0000 <= cp
    ensures ReadPoint(PercentAll(Utf8(cp)) + rest) == Success(Point(cp, 12))
  {
    var bytes := Utf8(cp);
    var t := PercentAll(bytes) + rest;
    var a := cp / 0x40;
    var b := a / 0x40;
    DivMod(cp, 0x40);
    DivMod(a, 0x40);
    DivMod(b, 0x40);
    assert bytes == [0xF0 + b / 0x40, 0x80 + b % 0x40, 0x80 + a % 0x40, 0x80 + cp % 0x40];
    assert 0xF0 <= bytes[0] < 0xF8;
    ReadBackBytes(bytes, rest, 0);
    assert ReadByte(t) == Some(bytes[0]) by { assert t[0..] == t; }
    ReadBackMore(bytes, rest, 1);
    ReadBackMore(bytes, rest, 2);
    ReadBackMore(bytes, rest, 3);
    var w: int, x: int, y: int, z: int := bytes[0] - 0xF0, bytes[1] - 0x80, bytes[2] - 0x80, bytes[3] - 0x80;
    assert ReadPoint(t) == Checked(((w * 0x40 + x) * 0x40 + y) * 0x40 + z, 0x1_0000, 12);
  }

  lemma ReadBackUnits(t: Text)
    requires t != [] && (StartsWithPair(t) || !IsSurrogate(t[0]))
    ensures Units(CodePoint(t)) == t[..Step(t)]
  {
    if StartsWithPair(t) {
      assert t[..2] == [t[0], t[1]];
    }
  }

  lemma DecodesFirstPoint(t: Text, rest: Text, tail: Text)
    requires t != [] && (StartsWithPair(t) || !IsSurrogate(t[0]))
    requires DecodeUri(rest) == Success(tail)
    ensures DecodeUri(EncodePoint(t) + rest) == Success(t[..Step(t)] + tail)
  {
    var e := EncodePoint(t) + rest;
    if Unreserved(t[0]) {
      assert e[1..] == rest;
      assert t[..1] == [t[0]];
    } else {
      var bytes := Utf8(CodePoint(t));
      ReadBackPoint(CodePoint(t), rest);
      ReadBackUnits(t);
      assert e[3 * |bytes|..] == rest;
      assert e[0] == PercentAll(bytes)[0] == Percent(bytes[0])[0];
    }
  }

  /** Encoding succeeds exactly on well-formed text, and decoding gives the text back. */
  lemma {:induction false} UriRoundTrip(t: Text)
    ensures EncodeUri(t).Success? <==> WellFormed(t)
    ensures EncodeUri(t).Success? ==> DecodeUri(EncodeUri(t).value) == Success(t)
  {
    if t != [] && (StartsWithPair(t) || !IsSurrogate(t[0])) {
      var tail := t[Step(t)..];
      UriRoundTrip(tail);
      if EncodeUri(tail).Success? {
        DecodesFirstPoint(t, EncodeUri(tail).value, tail);
        assert t == t[..Step(t)] + tail;
      }
    }
  }

  // ----- Decoding is strict -----

  /** A hex digit is the upper-case digit of its value or, for a letter, that in lower case. */
  lemma HexValueExactly(u: Unit, v: nat)
    ensures HexValue(u) == Some(v) <==> v < 16 && (u == UpperHex(v) || (v >= 10 && u == UpperHex(v) + 32))
  {
  }

  /** The Unicode scalar values are the code points well-formed text is made of. */
  lemma ScalarsMakeWellFormedText(cp: int)
    ensures IsScalar(cp) ==> WellFormed(Units(cp)) && CodePoint(Units(cp)) == cp && Step(Units(cp)) == |Units(cp)|
  {
    if IsScalar(cp) && cp >= 0x1_0000 {
      DivMod(cp - 0x1_0000, 0x400);
      assert Units(cp)[2..] == [];
    }
  }

  lemma UnscaleTwo(x: nat, y: nat)
    requires y < 0x40
    ensures (x * 0x40 + y) / 0x40 == x && (x * 0x40 + y) % 0x40 == y
  {
  }

  /** The text opens with these bytes in percent form. */
  predicate Opens(t: Text, bytes: seq<Byte>) {
    |t| >= 3 * |bytes| && forall k :: 0 <= k < |bytes| ==> ReadByte(t[3 * k..]) == Some(bytes[k])
  }

  lemma ShortFormOfThree(b: int, x: nat, y: nat)
    requires 0xE0 <= b < 0xF0 && x < 0x40 && y < 0x40
    ensures var cp := ((b - 0xE0) * 0x40 + x) * 0x40 + y;
            IsScalar(cp) && 0x800 <= cp ==> Utf8(cp) == [b, 0x80 + x, 0x80 + y]
  {
    UnscaleTwo(b - 0xE0, x);
    UnscaleTwo((b - 0xE0) * 0x40 + x, y);
  }

  lemma ShortFormOfFour(b: int, x: nat, y: nat, z: nat)
    requires 0xF0 <= b < 0xF8 && x < 0x40 && y < 0x40 && z < 0x40
    ensures var cp := (((b - 0xF0) * 0x40 + x) * 0x40 + y) * 0x40 + z;
            IsScalar(cp) && 0x1_0000 <= cp ==> Utf8(cp) == [b, 0x80 + x, 0x80 + y, 0x80 + z]
  {
    UnscaleTwo(b - 0xF0, x);
    UnscaleTwo((b - 0xF0) * 0x40 + x, y);
    UnscaleTwo(((b - 0xF0) * 0x40 + x) * 0x40 + y, z);
  }

  lemma MoreIsAByte(t: Text, k: nat)
    requires ReadMore(t, k).Some?
    ensures |t| >= 3 * k && ReadMore(t, k).value < 0x40
    ensures ReadByte(t[3 * k..]) == Some(0x80 + ReadMore(t, k).value)
  {
  }

  /** Only the shortest UTF-8 form of a Unicode scalar value is read: anything else throws. */
  lemma ReadsOnlyUtf8(t: Text)
    requires ReadPoint(t).Success?
    ensures var point := ReadPoint(t).value; Opens(t, Utf8(point.cp)) && point.size == 3 * |Utf8(point.cp)|
  {
    assert t[0..] == t;
    var b: int, cp := ReadByte(t).value, ReadPoint(t).value.cp;
    if b >= 0x80 {
      MoreIsAByte(t, 1);
      var x := ReadMore(t, 1).value;
      if b < 0xE0 {
        UnscaleTwo(b - 0xC0, x);
        assert Utf8(cp) == [b, 0x80 + x];
      } else {
        MoreIsAByte(t, 2);
        if b < 0xF0 {
          ShortFormOfThree(b, x, ReadMore(t, 2).value);
        } else {
          MoreIsAByte(t, 3);
          ShortFormOfFour(b, x, ReadMore(t, 2).value, ReadMore(t, 3).value);
        }
      }
    }
  }
}
