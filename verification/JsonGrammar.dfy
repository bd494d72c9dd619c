/**
 The grammar of JSON texts (RFC 8259), independent of the parser: which texts spell which values, with
 white space, escapes, numerals and repeated keys.  The parser accepts exactly the texts of the grammar
 and gives each the value it spells.
 */
module JsonGrammar {
  import opened Wrappers
  import opened Text
  import opened Decimal
  import opened Numbers
  import opened Json
  import opened JsonParse
  import UriCoding

  // ----- White space -----

  predicate Space(t: Text) {
    forall i :: 0 <= i < |t| ==> t[i] in {9, 10, 13, 32}
  }

  lemma {:induction false} SpaceIsSkipped(space: Text, t: Text)
    requires Space(space) && (t == [] || t[0] !in {9, 10, 13, 32})
    ensures SkipSpace(space + t) == t
  {
    if space == [] {
      assert space + t == t;
    } else {
      assert (space + t)[1..] == space[1..] + t;
      SpaceIsSkipped(space[1..], t);
    }
  }

  lemma {:induction false} SkippedIsSpace(t: Text) returns (space: Text)
    ensures t == space + SkipSpace(t) && Space(space)
    ensures SkipSpace(t) != [] ==> SkipSpace(t)[0] !in {9, 10, 13, 32}
  {
    space := [];
    if t != [] && t[0] in {9, 10, 13, 32} {
      var rest := SkippedIsSpace(t[1..]);
      space := [t[0]] + rest;
    }
  }

  // ----- Strings -----

  /** The text spells one unit of a string: as it is, by a short escape, or by its code in hexadecimal. */
  predicate Spells(g: Text, u: Unit) {
    || (g == [u] && u >= 32 && u != QUOTE && u != BACKSLASH)
    || (|g| == 2 && g[0] == BACKSLASH && (g[1], u) in SHORT_ESCAPES)
    || (|g| == 6 && g[..2] == [BACKSLASH, LETTER_U] && SpellsHex(g[2..], u))
  }

  const SHORT_ESCAPES: set<(Unit, Unit)> :=
    {(34, 34), (92, 92), (47, 47), (98, 8), (116, 9), (110, 10), (102, 12), (114, 13)}

  predicate SpellsHex(t: Text, u: Unit)
    requires |t| == 4
  {
    && UriCoding.HexValue(t[0]).Some? && UriCoding.HexValue(t[1]).Some?
    && UriCoding.HexValue(t[2]).Some? && UriCoding.HexValue(t[3]).Some?
    && u == UriCoding.HexValue(t[0]).value * 4096 + UriCoding.HexValue(t[1]).value * 256
            + UriCoding.HexValue(t[2]).value * 16 + UriCoding.HexValue(t[3]).value
  }

  predicate SpellsText(glyphs: seq<Text>, s: Text) {
    |glyphs| == |s| && forall i :: 0 <= i < |s| ==> Spells(glyphs[i], s[i])
  }

  function Join(glyphs: seq<Text>): Text {
    if glyphs == [] then [] else glyphs[0] + Join(glyphs[1..])
  }

  lemma GlyphReads(g: Text, u: Unit, x: Text)
    requires Spells(g, u)
    ensures g != [] && g[0] != QUOTE && Character(g + x) == Success((u, x))
  {
    var t := g + x;
    assert t[|g|..] == x;
    if |g| == 6 {
      assert t[2..6] == g[2..];
      assert t[0] == g[0] && t[1] == g[1];
    }
  }

  lemma {:induction false} GlyphsRead(glyphs: seq<Text>, s: Text, x: Text)
    requires SpellsText(glyphs, s)
    ensures Characters(Join(glyphs) + [QUOTE] + x) == Success((s, x))
  {
    if glyphs == [] {
      assert Join(glyphs) + [QUOTE] + x == [QUOTE] + x && ([QUOTE] + x)[1..] == x;
    } else {
      var y := Join(glyphs[1..]) + [QUOTE] + x;
      GlyphsRead(glyphs[1..], s[1..], x);
      Regroup(glyphs[0], Join(glyphs[1..]), [QUOTE], x);
      GlyphReads(glyphs[0], s[0], y);
      SingleReadsBack(glyphs[0] + y, s[0], y, s[1..], x);
      assert s == [s[0]] + s[1..];
    }
  }

  lemma CharacterIsGlyph(t: Text) returns (g: Text)
    requires t != [] && t[0] != QUOTE && Character(t).Success?
    ensures Spells(g, Character(t).value.0) && t == g + Character(t).value.1
  {
    var n := |t| - |Character(t).value.1|;
    g := t[..n];
    if t[0] != BACKSLASH {
      assert n == 1;
    } else if t[1] == LETTER_U {
      assert n == 6 && g[2..] == t[2..6] && g[..2] == [BACKSLASH, LETTER_U];
    } else {
      assert n == 2;
    }
  }

  lemma {:induction false} CharactersAreGlyphs(t: Text) returns (glyphs: seq<Text>)
    requires Characters(t).Success?
    ensures SpellsText(glyphs, Characters(t).value.0) && t == Join(glyphs) + [QUOTE] + Characters(t).value.1
    decreases |t|
  {
    glyphs := [];
    if t[0] == QUOTE {
      assert t == [QUOTE] + t[1..];
    } else {
      var g := CharacterIsGlyph(t);
      var rest := Character(t).value.1;
      var more := CharactersAreGlyphs(rest);
      glyphs := [g] + more;
      assert glyphs[1..] == more;
      Regroup(g, Join(more), [QUOTE], Characters(rest).value.1);
    }
  }

  // ----- Numerals -----

  // A numeral: an empty fraction or an empty mark means there is none.
  datatype Lexeme = Lexeme(negative: bool, whole: Text, fraction: Text, mark: Text, digits: Text) {
    predicate Valid() {
      && whole != [] && AllDigits(whole) && (|whole| == 1 || whole[0] != ZERO)
      && AllDigits(fraction) && AllDigits(digits)
      && (mark == [] <==> digits == [])
      && (mark != [] ==> |mark| <= 2 && (mark[0] == EXPONENT || mark[0] == EXPONENT - 32))
      && (|mark| == 2 ==> mark[1] == PLUS || mark[1] == MINUS)
    }

    function Tail(): Text {
      (if fraction == [] then [] else [POINT] + fraction) + (mark + digits)
    }

    function Write(): Text {
      (if negative then [MINUS] else []) + (whole + Tail())
    }
  }

  function LexemePower(l: Lexeme): int
    requires l.Valid()
  {
    if l.mark == [] then 0
    else if l.mark[|l.mark| - 1] == MINUS then -1 * Read(l.digits)
    else Read(l.digits)
  }

  function LexemeParts(l: Lexeme): Parts
    requires l.Valid()
  {
    Parts(l.negative, l.whole, l.fraction, LexemePower(l))
  }

  /** What may follow a value. */
  predicate Ends(x: Text) {
    x == [] || x[0] in {9, 10, 13, 32} || x[0] in DELIMITERS
  }

  lemma MarkReads(l: Lexeme, x: Text)
    requires l.Valid() && Ends(x)
    ensures JsonParse.Power(l.mark + l.digits + x) == Success((LexemePower(l), x))
  {
    PowerByMark(l.mark + l.digits + x);
    var t := l.mark + l.digits + x;
    if l.mark == [] {
      assert t == x;
    } else {
      var n := |l.mark|;
      RunStops(l.digits, x);
      assert t == l.mark + (l.digits + x);
      assert t[n..] == l.digits + x;
      assert t[0] == l.mark[0];
      assert |l.mark| == 1 ==> t[1] == l.digits[0];
      assert |l.mark| == 2 ==> t[1] == l.mark[1];
    }
  }

  lemma TailReads(l: Lexeme, x: Text)
    requires l.Valid() && Ends(x)
    ensures Fraction(l.Tail() + x) == Success((l.fraction, l.mark + l.digits + x))
  {
    var y := l.mark + l.digits + x;
    assert y == [] || (y[0] != POINT && !IsDigit(y[0]));
    if l.fraction == [] {
      assert l.Tail() + x == y;
    } else {
      Regroup([POINT], l.fraction, l.mark + l.digits, x);
      Regroup(l.fraction, l.mark + l.digits, x, []);
      assert l.Tail() + x == [POINT] + (l.fraction + y);
      DigitsAfterPoint(l.fraction, y);
    }
  }

  lemma UnsignedReads(l: Lexeme, x: Text)
    requires l.Valid() && Ends(x)
    ensures Unsigned(l.whole + l.Tail() + x) == Success((LexemeParts(l).(negative := false), x))
  {
    var y := l.Tail() + x;
    assert y == [] || !IsDigit(y[0]);
    assert l.whole + l.Tail() + x == l.whole + y;
    RunStops(l.whole, y);
    TailReads(l, x);
    MarkReads(l, x);
  }

  lemma LexemeReads(l: Lexeme, x: Text)
    requires l.Valid() && Ends(x)
    ensures Numeral(l.Write() + x) == Success((LexemeParts(l), x))
  {
    var v := l.whole + l.Tail();
    var parts := LexemeParts(l).(negative := false);
    UnsignedReads(l, x);
    assert (v + x)[0] == l.whole[0];
    SignReadsBack(v + x, parts, x);
    Regroup(if l.negative then [MINUS] else [], v, x, []);
    assert [] + (v + x) == v + x;
  }

  lemma {:induction false} RunIsDigits(t: Text)
    ensures t == Run(t).0 + Run(t).1
  {
    if t != [] && IsDigit(t[0]) {
      RunIsDigits(t[1..]);
      assert t == [t[0]] + t[1..];
    }
  }

  lemma WholeIsDigits(t: Text)
    requires Whole(t).Success?
    ensures t == Whole(t).value.0 + Whole(t).value.1 && Whole(t).value.0 != []
  {
    RunIsDigits(t);
  }

  lemma FractionIsDigits(t: Text)
    requires Fraction(t).Success?
    ensures var (f, rest) := Fraction(t).value; t == (if f == [] then [] else [POINT] + f) + rest
  {
    if t != [] && t[0] == POINT {
      RunIsDigits(t[1..]);
      assert t == [POINT] + t[1..];
    }
  }

  lemma MarkedPower(mark: Text, digits: Text)
    requires 1 <= |mark| <= 2 && (mark[0] == EXPONENT || mark[0] == EXPONENT - 32)
    requires |mark| == 2 ==> mark[1] == PLUS || mark[1] == MINUS
    requires digits != [] && AllDigits(digits)
    ensures var l := Lexeme(false, [ZERO], [], mark, digits);
            l.Valid() && LexemePower(l) == if |mark| == 2 && mark[1] == MINUS then -1 * Read(digits) else Read(digits)
  {
  }

  lemma PowerIsMark(t: Text) returns (mark: Text, digits: Text)
    requires JsonParse.Power(t).Success?
    ensures var l := Lexeme(false, [ZERO], [], mark, digits);
            l.Valid() && t == mark + digits + JsonParse.Power(t).value.1 && LexemePower(l) == JsonParse.Power(t).value.0
  {
    var n := MarkSize(t);
    PowerByMark(t);
    mark, digits := t[..n], [];
    if n > 0 {
      WholeIsDigits(t[n..]);
      digits := Whole(t[n..]).value.0;
      var rest := Whole(t[n..]).value.1;
      MarkedPower(mark, digits);
      assert t == mark + t[n..];
      Regroup(mark, digits, rest, []);
    }
  }

  lemma UnsignedIsLexeme(t: Text) returns (l: Lexeme)
    requires Unsigned(t).Success?
    ensures l.Valid() && !l.negative && LexemeParts(l) == Unsigned(t).value.0
    ensures t == l.whole + l.Tail() + Unsigned(t).value.1
  {
    WholeIsDigits(t);
    var (whole, u) := Whole(t).value;
    FractionIsDigits(u);
    var (fraction, v) := Fraction(u).value;
    var mark, digits := PowerIsMark(v);
    l := Lexeme(false, whole, fraction, mark, digits);
    var w := JsonParse.Power(v).value.1;
    var point: Text := if fraction == [] then [] else [POINT] + fraction;
    Regroup(point, mark + digits, w, []);
    Regroup(whole, point + (mark + digits), w, []);
  }

  lemma NumeralIsLexeme(t: Text) returns (l: Lexeme)
    requires Numeral(t).Success?
    ensures l.Valid() && LexemeParts(l) == Numeral(t).value.0 && t == l.Write() + Numeral(t).value.1
  {
    if t[0] == MINUS {
      var m := UnsignedIsLexeme(t[1..]);
      l := m.(negative := true);
      assert t == [MINUS] + t[1..];
      Regroup([MINUS], m.whole + m.Tail(), Unsigned(t[1..]).value.1, []);
    } else {
      l := UnsignedIsLexeme(t);
      assert l.Write() == l.whole + l.Tail();
    }
  }

  // ----- Values -----

  // A text of the grammar, taken apart.
  datatype Syntax =
    | Word(word: Json)
    | Numeric(numeral: Lexeme)
    | Quoted(glyphs: seq<Text>, text: Text)
    | List(space: Text, items: seq<Padded>)
    | Braces(space: Text, members: seq<Entry>)

  // A value with the white space around it.
  datatype Padded = Padded(before: Text, core: Syntax, after: Text)

  // A member: its key with the white space around it, and its value.
  datatype Entry = Entry(before: Text, glyphs: seq<Text>, key: Text, after: Text, value: Padded)

  predicate Valid(c: Syntax)
    decreases c
  {
    match c
    case Word(v) => v.Null? || v.Bool?
    case Numeric(l) => l.Valid()
    case Quoted(glyphs, s) => SpellsText(glyphs, s)
    case List(space, items) => Space(space) && forall i :: 0 <= i < |items| ==> ValidPadded(items[i])
    case Braces(space, members) => Space(space) && forall i :: 0 <= i < |members| ==> ValidEntry(members[i])
  }

  predicate ValidPadded(p: Padded)
    decreases p
  {
    Space(p.before) && Space(p.after) && Valid(p.core)
  }

  predicate ValidEntry(e: Entry)
    decreases e
  {
    Space(e.before) && Space(e.after) && SpellsText(e.glyphs, e.key) && ValidPadded(e.value)
  }

  function Write(c: Syntax): Text
    decreases c
  {
    match c
    case Word(Bool(b)) => if b then Ascii("true") else Ascii("false")
    case Word(_) => Ascii("null")
    case Numeric(l) => l.Write()
    case Quoted(glyphs, _) => [QUOTE] + (Join(glyphs) + [QUOTE])
    case List(space, items) =>
      [OPEN_BRACKET] + if items == [] then space + [CLOSE_BRACKET] else WritePadded(items[0]) + WriteMore(items[1..])
    case Braces(space, members) =>
      [OPEN_BRACE]
      + if members == [] then space + [CLOSE_BRACE] else WriteEntry(members[0]) + WriteEntries(members[1..])
  }

  function WritePadded(p: Padded): Text
    decreases p
  {
    p.before + (Write(p.core) + p.after)
  }

  function WriteMore(items: seq<Padded>): Text
    decreases items
  {
    if items == [] then [CLOSE_BRACKET] else [COMMA] + (WritePadded(items[0]) + WriteMore(items[1..]))
  }

  function WriteEntry(e: Entry): Text
    decreases e
  {
    e.before + ([QUOTE] + (Join(e.glyphs) + [QUOTE] + (e.after + ([COLON] + WritePadded(e.value)))))
  }

  function WriteEntries(members: seq<Entry>): Text
    decreases members
  {
    if members == [] then [CLOSE_BRACE] else [COMMA] + (WriteEntry(members[0]) + WriteEntries(members[1..]))
  }

  /** The value a text of the grammar spells. */
  function Mean(c: Syntax): Json
    requires Valid(c)
    decreases c
  {
    match c
    case Word(v) => v
    case Numeric(l) => Num(Denoted(LexemeParts(l)))
    case Quoted(_, s) => Str(s)
    case List(_, items) => Arr(MeanItems(items))
    case Braces(_, members) => Obj(MeanEntries(members))
  }

  function MeanItems(items: seq<Padded>): (r: seq<Json>)
    requires forall i :: 0 <= i < |items| ==> ValidPadded(items[i])
    ensures |r| == |items|
    decreases items
  {
    seq(|items|, i requires 0 <= i < |items| => MeanPadded(items[i]))
  }

  function MeanPadded(p: Padded): Json
    requires ValidPadded(p)
    decreases p
  {
    Mean(p.core)
  }

  /** The members define properties one after the other. */
  function MeanEntries(members: seq<Entry>): seq<(Text, Json)>
    requires forall i :: 0 <= i < |members| ==> ValidEntry(members[i])
    decreases members
  {
    if members == [] then []
    else
      var n := |members| - 1;
      assert members[n] in members;
      Put(MeanEntries(members[..n]), members[n].key, MeanEntry(members[n]))
  }

  function MeanEntry(e: Entry): Json
    requires ValidEntry(e)
    decreases e
  {
    MeanPadded(e.value)
  }

  // ----- Every text of the grammar is read -----

  lemma SpaceEnds(space: Text, x: Text)
    requires Space(space) && Ends(x)
    ensures Ends(space + x)
  {
    if space == [] { assert space + x == x; }
  }

  lemma CoreStarts(c: Syntax)
    requires Valid(c)
    ensures Write(c) != [] && Write(c)[0] !in {9, 10, 13, 32} && Write(c)[0] != CLOSE_BRACKET
  {
    if c.Numeric? {
      var l := c.numeral;
      assert l.Write()[0] == if l.negative then MINUS else l.whole[0];
    }
  }

  lemma CoreIsNotSkipped(before: Text, c: Syntax, x: Text)
    requires Space(before) && Valid(c)
    ensures SkipSpace(before + (Write(c) + x)) == Write(c) + x
  {
    CoreStarts(c);
    assert (Write(c) + x)[0] == Write(c)[0];
    SpaceIsSkipped(before, Write(c) + x);
  }

  /** White space, a text of the grammar and whatever may follow it. */
  lemma {:induction false} ReadsValue(before: Text, c: Syntax, x: Text)
    requires Space(before) && Valid(c) && Ends(x)
    ensures Value(before + (Write(c) + x)) == Success((Mean(c), x))
    decreases c, 2
  {
    var u := Write(c) + x;
    CoreIsNotSkipped(before, c, x);
    match c {
      case Word(v) =>
        assert Write(c) == Stringify(v);
        LiteralReadsBack(v, x);
        assert u[0] == Write(c)[0];
      case Numeric(l) => ReadsNumeral(l, x);
      case Quoted(glyphs, s) => ReadsQuoted(glyphs, s, x);
      case List(space, items) => ReadsList(space, items, x);
      case Braces(space, members) => ReadsBraces(space, members, x);
    }
  }

  lemma ReadsNumeral(l: Lexeme, x: Text)
    requires l.Valid() && Ends(x)
    ensures var u := l.Write() + x;
            && u != [] && u[0] != OPEN_BRACKET && u[0] != OPEN_BRACE
            && Scalar(u) == Success((Num(Denoted(LexemeParts(l))), x))
  {
    LexemeReads(l, x);
    assert l.Write()[0] == if l.negative then MINUS else l.whole[0];
    assert (l.Write() + x)[0] == l.Write()[0];
    NumeralsStandAlone(l.Write() + x, LexemeParts(l), x);
  }

  lemma ReadsQuoted(glyphs: seq<Text>, s: Text, x: Text)
    requires SpellsText(glyphs, s)
    ensures var u := [QUOTE] + (Join(glyphs) + [QUOTE]) + x; Scalar(u) == Success((Str(s), x))
  {
    GlyphsRead(glyphs, s, x);
    assert ([QUOTE] + (Join(glyphs) + [QUOTE]) + x)[1..] == Join(glyphs) + [QUOTE] + x;
  }

  lemma {:induction false} ReadsList(space: Text, items: seq<Padded>, x: Text)
    requires Space(space) && (forall i :: 0 <= i < |items| ==> ValidPadded(items[i])) && Ends(x)
    ensures var u := Write(List(space, items)) + x;
            u != [] && u[0] == OPEN_BRACKET && Elements(u[1..]) == Success((Arr(MeanItems(items)), x))
    decreases items, 1
  {
    var u := Write(List(space, items)) + x;
    if items == [] {
      Regroup([OPEN_BRACKET], space, [CLOSE_BRACKET], x);
      assert u == [OPEN_BRACKET] + (space + ([CLOSE_BRACKET] + x));
      SpaceIsSkipped(space, [CLOSE_BRACKET] + x);
      assert u[1..] == space + ([CLOSE_BRACKET] + x);
      assert ([CLOSE_BRACKET] + x)[1..] == x;
    } else {
      var y := WritePadded(items[0]) + (WriteMore(items[1..]) + x);
      Shift(OPEN_BRACKET, WritePadded(items[0]), WriteMore(items[1..]), x);
      assert u[1..] == y;
      ItemStarts(items[0], WriteMore(items[1..]) + x);
      ReadsItems(items, x);
    }
  }

  lemma ItemStarts(p: Padded, x: Text)
    requires ValidPadded(p)
    ensures var u := SkipSpace(WritePadded(p) + x); u != [] && u[0] != CLOSE_BRACKET
  {
    CoreStarts(p.core);
    Regroup(p.before, Write(p.core), p.after, x);
    var y := Write(p.core) + p.after + x;
    assert y[0] == Write(p.core)[0];
    assert WritePadded(p) + x == p.before + y;
    SpaceIsSkipped(p.before, y);
  }

  lemma {:induction false} ReadsPadded(p: Padded, x: Text)
    requires ValidPadded(p) && (x == [] || x[0] in DELIMITERS)
    ensures Value(WritePadded(p) + x) == Success((MeanPadded(p), p.after + x)) && SkipSpace(p.after + x) == x
    decreases p
  {
    SpaceEnds(p.after, x);
    SpaceIsSkipped(p.after, x);
    ReadsValue(p.before, p.core, p.after + x);
    assert WritePadded(p) + x == p.before + (Write(p.core) + (p.after + x)) by {
      Regroup(p.before, Write(p.core), p.after, x);
      Regroup(Write(p.core), p.after, x, []);
    }
  }

  lemma {:induction false} ReadsItems(items: seq<Padded>, x: Text)
    requires items != [] && (forall i :: 0 <= i < |items| ==> ValidPadded(items[i])) && Ends(x)
    ensures SomeElements(WritePadded(items[0]) + (WriteMore(items[1..]) + x)) == Success((MeanItems(items), x))
    decreases items, 0
  {
    var more := items[1..];
    var rest := WriteMore(more) + x;
    ReadsPadded(items[0], rest);
    assert MeanItems(items) == [MeanPadded(items[0])] + MeanItems(more);
    if more == [] {
      assert rest == [CLOSE_BRACKET] + x && rest[1..] == x;
      assert MeanItems(more) == [] && MeanItems(items) == [MeanPadded(items[0])];
    } else {
      Shift(COMMA, WritePadded(more[0]), WriteMore(more[1..]), x);
      assert rest == [COMMA] + (WritePadded(more[0]) + WriteMore(more[1..])) + x;
      assert rest[0] == COMMA && rest[1..] == WritePadded(more[0]) + (WriteMore(more[1..]) + x);
      ReadsItems(more, x);
    }
  }

  lemma ReadsEmptyBraces(space: Text, x: Text)
    requires Space(space)
    ensures Members(space + ([CLOSE_BRACE] + x)) == Success((Obj([]), x))
  {
    SpaceIsSkipped(space, [CLOSE_BRACE] + x);
    assert ([CLOSE_BRACE] + x)[1..] == x;
  }

  lemma MembersAfterAll(t: Text, all: seq<(Text, Json)>, x: Text)
    requires SkipSpace(t) != [] && SkipSpace(t)[0] == QUOTE && SomeMembers(t, []) == Success((all, x))
    ensures Members(t) == Success((Obj(all), x))
  {
  }

  lemma {:induction false} ReadsBraces(space: Text, members: seq<Entry>, x: Text)
    requires Space(space) && (forall i :: 0 <= i < |members| ==> ValidEntry(members[i])) && Ends(x)
    ensures var u := Write(Braces(space, members)) + x;
            u != [] && u[0] == OPEN_BRACE && Members(u[1..]) == Success((Obj(MeanEntries(members)), x))
    decreases members, 2
  {
    var u := Write(Braces(space, members)) + x;
    if members == [] {
      Regroup([OPEN_BRACE], space, [CLOSE_BRACE], x);
      Regroup(space, [CLOSE_BRACE], x, []);
      assert u[1..] == space + ([CLOSE_BRACE] + x);
      ReadsEmptyBraces(space, x);
    } else {
      var y := WriteEntry(members[0]) + (WriteEntries(members[1..]) + x);
      Shift(OPEN_BRACE, WriteEntry(members[0]), WriteEntries(members[1..]), x);
      assert u[1..] == y;
      EntryStarts(members[0], WriteEntries(members[1..]) + x);
      assert members[..0] == [];
      ReadsEntries(members, 0, x);
      MembersAfterAll(y, MeanEntries(members), x);
    }
  }

  /** What follows the white space before an entry. */
  function KeyOn(e: Entry, x: Text): Text {
    [QUOTE] + (Join(e.glyphs) + [QUOTE] + (e.after + ([COLON] + (WritePadded(e.value) + x))))
  }

  lemma EntrySplits(e: Entry, x: Text)
    ensures WriteEntry(e) + x == e.before + KeyOn(e, x)
  {
  }

  lemma EntryStarts(e: Entry, x: Text)
    requires ValidEntry(e)
    ensures var u := SkipSpace(WriteEntry(e) + x); u == KeyOn(e, x) && u != [] && u[0] == QUOTE
  {
    EntrySplits(e, x);
    SpaceIsSkipped(e.before, KeyOn(e, x));
  }

  lemma {:induction false} ReadsEntry(e: Entry, x: Text)
    requires ValidEntry(e) && (x == [] || x[0] in DELIMITERS)
    ensures OneMember(WriteEntry(e) + x) == Success(((e.key, MeanEntry(e)), e.value.after + x))
    ensures SkipSpace(e.value.after + x) == x
    decreases e
  {
    var y := [COLON] + (WritePadded(e.value) + x);
    EntryStarts(e, x);
    GlyphsRead(e.glyphs, e.key, e.after + y);
    assert KeyOn(e, x)[1..] == Join(e.glyphs) + [QUOTE] + (e.after + y);
    SpaceIsSkipped(e.after, y);
    assert y[1..] == WritePadded(e.value) + x;
    ReadsPadded(e.value, x);
  }

  lemma {:induction false} ReadsEntries(members: seq<Entry>, k: nat, x: Text)
    requires k < |members| && (forall i :: 0 <= i < |members| ==> ValidEntry(members[i])) && Ends(x)
    ensures SomeMembers(WriteEntry(members[k]) + (WriteEntries(members[k + 1..]) + x), MeanEntries(members[..k]))
            == Success((MeanEntries(members), x))
    decreases members, 1, |members| - k
  {
    var more := members[k + 1..];
    var rest := WriteEntries(more) + x;
    var t := WriteEntry(members[k]) + rest;
    var e := members[k];
    ReadsEntry(e, rest);
    assert members[..k + 1][..k] == members[..k] && members[..k + 1][k] == e;
    assert MeanEntries(members[..k + 1]) == Put(MeanEntries(members[..k]), e.key, MeanEntry(e));
    if more == [] {
      assert members[..k + 1] == members;
      assert rest == [CLOSE_BRACE] + x && rest[1..] == x;
    } else {
      assert more[0] == members[k + 1] && more[1..] == members[k + 2..];
      Shift(COMMA, WriteEntry(more[0]), WriteEntries(more[1..]), x);
      assert rest[0] == COMMA && rest[1..] == WriteEntry(more[0]) + (WriteEntries(more[1..]) + x);
      ReadsEntries(members, k + 1, x);
    }
  }

  // ----- Whatever is read is a text of the grammar -----

  lemma WordIsSyntax(t: Text, word: Text, v: Json) returns (c: Syntax)
    requires word != [] && Literal(t, word, v).Success? && Valid(Word(v)) && Write(Word(v)) == word
    ensures Valid(c) && Mean(c) == v && t == Write(c) + Literal(t, word, v).value.1
  {
    c := Word(v);
    assert t == t[..|word|] + t[|word|..];
  }

  lemma ScalarIsSyntax(t: Text) returns (c: Syntax)
    requires t != [] && Scalar(t).Success?
    ensures Valid(c) && Mean(c) == Scalar(t).value.0 && t == Write(c) + Scalar(t).value.1
  {
    if t[0] == QUOTE {
      var glyphs := CharactersAreGlyphs(t[1..]);
      var (s, rest) := Characters(t[1..]).value;
      c := Quoted(glyphs, s);
      assert t == [QUOTE] + t[1..];
      Regroup([QUOTE], Join(glyphs) + [QUOTE], rest, []);
    } else if t[0] == 110 {
      c := WordIsSyntax(t, Ascii("null"), Null);
    } else if t[0] == 116 {
      c := WordIsSyntax(t, Ascii("true"), Bool(true));
    } else if t[0] == 102 {
      c := WordIsSyntax(t, Ascii("false"), Bool(false));
    } else {
      var l := NumeralIsLexeme(t);
      c := Numeric(l);
    }
  }

  lemma ValueStep(t: Text)
    requires Value(t).Success?
    ensures var u := SkipSpace(t);
            && u != []
            && (if u[0] == OPEN_BRACKET then Elements(u[1..]) == Value(t)
                else if u[0] == OPEN_BRACE then Members(u[1..]) == Value(t)
                else Scalar(u) == Value(t))
  {
  }

  lemma {:induction false} ValueIsSyntax(t: Text) returns (before: Text, c: Syntax)
    requires Value(t).Success?
    ensures Space(before) && Valid(c) && Mean(c) == Value(t).value.0
    ensures t == before + (Write(c) + Value(t).value.1)
    decreases |t|, 0
  {
    before := SkippedIsSpace(t);
    var u := SkipSpace(t);
    ValueStep(t);
    if u[0] == OPEN_BRACKET {
      assert u == [OPEN_BRACKET] + u[1..];
      c := ListIsSyntax(u[1..]);
    } else if u[0] == OPEN_BRACE {
      assert u == [OPEN_BRACE] + u[1..];
      c := BracesAreSyntax(u[1..]);
    } else {
      c := ScalarIsSyntax(u);
    }
  }

  lemma {:induction false} ListIsSyntax(t: Text) returns (c: Syntax)
    requires Elements(t).Success?
    ensures Valid(c) && Mean(c) == Elements(t).value.0 && [OPEN_BRACKET] + t == Write(c) + Elements(t).value.1
    decreases |t|, 3
  {
    var space := SkippedIsSpace(t);
    var u := SkipSpace(t);
    if u != [] && u[0] == CLOSE_BRACKET {
      c := List(space, []);
      assert u == [CLOSE_BRACKET] + u[1..];
      assert MeanItems([]) == [];
      Regroup([OPEN_BRACKET], space, [CLOSE_BRACKET], u[1..]);
    } else {
      var items := ItemsAreSyntax(t, SomeElements(t).value.0, SomeElements(t).value.1);
      c := List([], items);
      Regroup([OPEN_BRACKET], WritePadded(items[0]), WriteMore(items[1..]), SomeElements(t).value.1);
      Regroup(WritePadded(items[0]), WriteMore(items[1..]), SomeElements(t).value.1, []);
    }
  }

  lemma {:induction false} PaddedIsSyntax(t: Text) returns (p: Padded)
    requires Value(t).Success?
    ensures ValidPadded(p) && MeanPadded(p) == Value(t).value.0
    ensures t == WritePadded(p) + SkipSpace(Value(t).value.1)
    decreases |t|, 1
  {
    var before, c := ValueIsSyntax(t);
    var rest := Value(t).value.1;
    var after := SkippedIsSpace(rest);
    p := Padded(before, c, after);
    Regroup(before, Write(c), after, SkipSpace(rest));
    Regroup(Write(c), after, SkipSpace(rest), []);
  }

  lemma ItemStep(t: Text)
    requires SomeElements(t).Success?
    ensures Value(t).Success? && SkipSpace(Value(t).value.1) != []
    ensures var (v, u) := (Value(t).value.0, SkipSpace(Value(t).value.1));
            if u[0] == CLOSE_BRACKET then SomeElements(t) == Success(([v], u[1..]))
            else
              && u[0] == COMMA && SomeElements(u[1..]).Success?
              && SomeElements(t).value == ([v] + SomeElements(u[1..]).value.0, SomeElements(u[1..]).value.1)
  {
  }

  lemma MeanOfItems(p: Padded, more: seq<Padded>)
    requires ValidPadded(p) && forall i :: 0 <= i < |more| ==> ValidPadded(more[i])
    ensures ([p] + more)[0] == p && ([p] + more)[1..] == more
    ensures MeanItems([p] + more) == [MeanPadded(p)] + MeanItems(more)
  {
    var all := [p] + more;
    assert all[1..] == more;
    forall i | 0 <= i < |all| ensures MeanItems(all)[i] == ([MeanPadded(p)] + MeanItems(more))[i] {
      assert i > 0 ==> all[i] == more[i - 1];
    }
  }

  lemma ItemCommaSplits(more: seq<Padded>, u: Text, x: Text)
    requires more != [] && u != [] && u[0] == COMMA && u[1..] == WritePadded(more[0]) + (WriteMore(more[1..]) + x)
    ensures u == WriteMore(more) + x
  {
    assert u == [COMMA] + u[1..];
    Regroup([COMMA], WritePadded(more[0]), WriteMore(more[1..]), x);
    Regroup(WritePadded(more[0]), WriteMore(more[1..]), x, []);
  }

  lemma {:induction false} ItemsAreSyntax(t: Text, all: seq<Json>, x: Text) returns (items: seq<Padded>)
    requires SomeElements(t) == Success((all, x))
    ensures items != [] && (forall i :: 0 <= i < |items| ==> ValidPadded(items[i])) && MeanItems(items) == all
    ensures t == WritePadded(items[0]) + (WriteMore(items[1..]) + x)
    decreases |t|, 2
  {
    ItemStep(t);
    var p := PaddedIsSyntax(t);
    var u := SkipSpace(Value(t).value.1);
    if u[0] == CLOSE_BRACKET {
      MeanOfItems(p, []);
      items := [p] + [];
      assert u == [CLOSE_BRACKET] + u[1..] && MeanItems([]) == [];
    } else {
      var more := ItemsAreSyntax(u[1..], SomeElements(u[1..]).value.0, x);
      MeanOfItems(p, more);
      ItemCommaSplits(more, u, x);
      items := [p] + more;
    }
  }

  lemma MembersStep(t: Text)
    requires Members(t).Success?
    ensures var u := SkipSpace(t);
            if u != [] && u[0] == CLOSE_BRACE then Members(t) == Success((Obj([]), u[1..]))
            else
              && SomeMembers(t, []).Success?
              && Members(t) == Success((Obj(SomeMembers(t, []).value.0), SomeMembers(t, []).value.1))
  {
  }

  lemma EmptyBraces(t: Text, space: Text, u: Text)
    requires Space(space) && t == space + u && u != [] && u[0] == CLOSE_BRACE
    ensures var c := Braces(space, []);
            Valid(c) && Mean(c) == Obj([]) && [OPEN_BRACE] + t == Write(c) + u[1..]
  {
    assert u == [CLOSE_BRACE] + u[1..];
    Regroup([OPEN_BRACE], space, [CLOSE_BRACE], u[1..]);
  }

  lemma FullBraces(t: Text, members: seq<Entry>, x: Text)
    requires members != [] && forall i :: 0 <= i < |members| ==> ValidEntry(members[i])
    requires t == WriteEntry(members[0]) + (WriteEntries(members[1..]) + x)
    ensures var c := Braces([], members);
            Valid(c) && Mean(c) == Obj(MeanEntries(members)) && [OPEN_BRACE] + t == Write(c) + x
  {
    Regroup([OPEN_BRACE], WriteEntry(members[0]), WriteEntries(members[1..]), x);
    Regroup(WriteEntry(members[0]), WriteEntries(members[1..]), x, []);
  }

  lemma {:induction false} BracesAreSyntax(t: Text) returns (c: Syntax)
    requires Members(t).Success?
    ensures Valid(c) && Mean(c) == Members(t).value.0 && [OPEN_BRACE] + t == Write(c) + Members(t).value.1
    decreases |t|, 4
  {
    var space := SkippedIsSpace(t);
    var u := SkipSpace(t);
    MembersStep(t);
    if u != [] && u[0] == CLOSE_BRACE {
      EmptyBraces(t, space, u);
      c := Braces(space, []);
    } else {
      var (all, x) := SomeMembers(t, []).value;
      var members := EntriesAreSyntax(t, [], all, x);
      assert [] + members == members;
      FullBraces(t, members, x);
      c := Braces([], members);
    }
  }

  lemma {:induction false} EntryIsSyntax(t: Text) returns (e: Entry)
    requires OneMember(t).Success?
    ensures ValidEntry(e) && OneMember(t).value.0 == (e.key, MeanEntry(e))
    ensures t == WriteEntry(e) + SkipSpace(OneMember(t).value.1)
    decreases |t|, 1
  {
    var before := SkippedIsSpace(t);
    var u := SkipSpace(t);
    var glyphs := CharactersAreGlyphs(u[1..]);
    var (key, rest) := Characters(u[1..]).value;
    var after := SkippedIsSpace(rest);
    var w := SkipSpace(rest);
    var p := PaddedIsSyntax(w[1..]);
    var x := SkipSpace(Value(w[1..]).value.1);
    e := Entry(before, glyphs, key, after, p);
    assert u == [QUOTE] + u[1..] && w == [COLON] + w[1..];
    assert u == KeyOn(e, x);
    EntrySplits(e, x);
  }

  lemma OneMoreEntry(ahead: seq<Entry>, e: Entry)
    requires (forall i :: 0 <= i < |ahead| ==> ValidEntry(ahead[i])) && ValidEntry(e)
    ensures var longer := ahead + [e];
            && (forall i :: 0 <= i < |longer| ==> ValidEntry(longer[i]))
            && MeanEntries(longer) == Put(MeanEntries(ahead), e.key, MeanEntry(e))
  {
    assert (ahead + [e])[..|ahead|] == ahead;
  }

  lemma LastEntryEnds(e: Entry, u: Text)
    requires u != [] && u[0] == CLOSE_BRACE
    ensures u == WriteEntries([e][1..]) + u[1..]
  {
    assert u == [CLOSE_BRACE] + u[1..] && [e][1..] == [];
  }

  lemma CommaSplits(more: seq<Entry>, u: Text, x: Text)
    requires more != [] && u != [] && u[0] == COMMA && u[1..] == WriteEntry(more[0]) + (WriteEntries(more[1..]) + x)
    ensures u == WriteEntries(more) + x
  {
    assert u == [COMMA] + u[1..];
    Regroup([COMMA], WriteEntry(more[0]), WriteEntries(more[1..]), x);
    Regroup(WriteEntry(more[0]), WriteEntries(more[1..]), x, []);
  }

  lemma OneStep(t: Text, entries: seq<(Text, Json)>)
    requires OneMember(t).Success? && SkipSpace(OneMember(t).value.1) != []
    ensures var (entry, u) := (OneMember(t).value.0, SkipSpace(OneMember(t).value.1));
            var all := Put(entries, entry.0, entry.1);
            SomeMembers(t, entries) ==
            if u[0] == CLOSE_BRACE then Success((all, u[1..]))
            else if u[0] == COMMA then SomeMembers(u[1..], all)
            else Failure(())
  {
  }

  /** One more member, and what follows it. */
  lemma {:induction false} EntriesStep(t: Text, ahead: seq<Entry>, all: seq<(Text, Json)>, x: Text)
    returns (e: Entry, u: Text)
    requires forall i :: 0 <= i < |ahead| ==> ValidEntry(ahead[i])
    requires SomeMembers(t, MeanEntries(ahead)) == Success((all, x))
    ensures ValidEntry(e) && t == WriteEntry(e) + u && 0 < |u| <= |t|
    ensures forall i :: 0 <= i < |ahead + [e]| ==> ValidEntry((ahead + [e])[i])
    ensures if u[0] == CLOSE_BRACE then all == MeanEntries(ahead + [e]) && x == u[1..]
            else u[0] == COMMA && SomeMembers(u[1..], MeanEntries(ahead + [e])) == Success((all, x))
    decreases |t|, 2
  {
    e := EntryIsSyntax(t);
    u := SkipSpace(OneMember(t).value.1);
    OneStep(t, MeanEntries(ahead));
    OneMoreEntry(ahead, e);
  }

  /** The members read after those of the list. */
  lemma {:induction false} EntriesAreSyntax(t: Text, ahead: seq<Entry>, all: seq<(Text, Json)>, x: Text)
    returns (members: seq<Entry>)
    requires forall i :: 0 <= i < |ahead| ==> ValidEntry(ahead[i])
    requires SomeMembers(t, MeanEntries(ahead)) == Success((all, x))
    ensures members != [] && (forall i :: 0 <= i < |members| ==> ValidEntry(members[i]))
    ensures MeanEntries(ahead + members) == all
    ensures t == WriteEntry(members[0]) + (WriteEntries(members[1..]) + x)
    decreases |t|, 3
  {
    var e, u := EntriesStep(t, ahead, all, x);
    if u[0] == CLOSE_BRACE {
      members := [e];
      LastEntryEnds(e, u);
    } else {
      var more := EntriesAreSyntax(u[1..], ahead + [e], all, x);
      members := [e] + more;
      CommaSplits(more, u, x);
      EntriesJoin(ahead, e, more);
    }
  }

  lemma EntriesJoin(ahead: seq<Entry>, e: Entry, more: seq<Entry>)
    ensures ahead + [e] + more == ahead + ([e] + more)
    ensures ([e] + more)[0] == e && ([e] + more)[1..] == more
  {
  }

  // ----- The parser is the grammar -----

  /** The text spells the value, with white space around it. */
  ghost predicate SpellsValue(t: Text, v: Json) {
    exists p: Padded :: ValidPadded(p) && t == WritePadded(p) && v == MeanPadded(p)
  }

  /** Parsing succeeds exactly on the texts of the grammar and gives the value they spell. */
  lemma ParseIsTheGrammar(t: Text, v: Json)
    ensures Parse(t) == Success(v) <==> SpellsValue(t, v)
  {
    if Parse(t) == Success(v) {
      var p := PaddedIsSyntax(t);
      assert t == WritePadded(p) + [] == WritePadded(p);
    }
    if p: Padded :| ValidPadded(p) && t == WritePadded(p) && v == MeanPadded(p) {
      ReadsPadded(p, []);
      assert WritePadded(p) + [] == t && p.after + [] == p.after;
    }
  }
}
